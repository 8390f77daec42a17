// A socket in the network model does what the methods of class ReliableSocket do: between two calls of its
// program, a run takes it exactly where one call over the outcomes it meets takes it, and puts on the channel
// exactly what that call transmits.

module Correspondence {
  import opened Prelude
  import opened Segments
  import opened Sockets
  import opened Transport

  predicate SenderCall(e: Event) { e.Connect? || e.Send? || e.CloseA? }

  predicate ReceiverCall(e: Event) { e.Accept? || e.Receive? || e.CloseB? }

  // What receive() yields to each side in a run.
  function OutcomesA(n: Net, es: seq<Event>): seq<Outcome>
    requires Run(n, es).Some?
    decreases |es|
  {
    if es == [] then []
    else
      var rest := OutcomesA(Step(n, es[0]).value, es[1..]);
      match es[0]
      case ArriveA(sample) => [Arrived(n.toA[0], sample)] + rest
      case TimeoutA => [TimedOut] + rest
      case _ => rest
  }

  function OutcomesB(n: Net, es: seq<Event>): seq<Outcome>
    requires Run(n, es).Some?
    decreases |es|
  {
    if es == [] then []
    else
      var rest := OutcomesB(Step(n, es[0]).value, es[1..]);
      match es[0]
      case ArriveB => [Arrived(n.toB[0], 0)] + rest
      case TimeoutB => [TimedOut] + rest
      case _ => rest
  }

  // What an event of one side adds to its outgoing channel.
  function AddedToB(n: Net, e: Event): seq<Segment>
    requires Step(n, e).Some?
  { if SenderCall(e) || e.ArriveA? || e.TimeoutA? then Step(n, e).value.toB[|n.toB|..] else [] }

  function AddedToA(n: Net, e: Event): seq<Segment>
    requires Step(n, e).Some?
  { if ReceiverCall(e) || e.ArriveB? || e.TimeoutB? then Step(n, e).value.toA[|n.toA|..] else [] }

  function AllAddedToB(n: Net, es: seq<Event>): seq<Segment>
    requires Run(n, es).Some?
    decreases |es|
  { if es == [] then [] else AddedToB(n, es[0]) + AllAddedToB(Step(n, es[0]).value, es[1..]) }

  function AllAddedToA(n: Net, es: seq<Event>): seq<Segment>
    requires Run(n, es).Some?
    decreases |es|
  { if es == [] then [] else AddedToA(n, es[0]) + AllAddedToA(Step(n, es[0]).value, es[1..]) }

  lemma SenderStep(n: Net, e: Event)
    requires Step(n, e).Some? && !SenderCall(e)
    ensures var m := Step(n, e).value;
            if e.ArriveA? || e.TimeoutA? then
              var r := React(n.a, if e.ArriveA? then Arrived(n.toA[0], e.sample) else TimedOut);
              n.a.call.Blocked() && m.a == r.socket && AddedToB(n, e) == r.sent
            else m.a == n.a && AddedToB(n, e) == []
  {
  }

  lemma {:induction false} SenderRunsItsCall(n: Net, es: seq<Event>)
    requires Run(n, es).Some? && forall i :: 0 <= i < |es| ==> !SenderCall(es[i])
    ensures var e := Drive(n.a, OutcomesA(n, es));
            e.socket == Run(n, es).value.a && e.rest == [] && e.sent == AllAddedToB(n, es)
    decreases |es|
  {
    if es != [] {
      var m := Step(n, es[0]).value;
      SenderStep(n, es[0]);
      SenderRunsItsCall(m, es[1..]);
      if es[0].ArriveA? || es[0].TimeoutA? {
        assert OutcomesA(n, es)[1..] == OutcomesA(m, es[1..]);
      }
    }
  }

  function Extended(payloads: seq<Payload>, returned: Option<Payload>): seq<Payload> {
    if returned.Some? then payloads + [returned.value] else payloads
  }

  lemma ReceiverStep(n: Net, e: Event)
    requires Step(n, e).Some? && !ReceiverCall(e)
    ensures var m := Step(n, e).value;
            if e.ArriveB? || e.TimeoutB? then
              var r := React(n.b, if e.ArriveB? then Arrived(n.toB[0], 0) else TimedOut);
              && n.b.call.Blocked() && m.b == r.socket && m.delivered == Extended(n.delivered, r.delivered)
              && (r.delivered.Some? ==> !m.b.call.Blocked()) && AddedToA(n, e) == r.sent
            else m.b == n.b && m.delivered == n.delivered && AddedToA(n, e) == []
  {
  }

  lemma {:induction false} ReceiverRunsItsCall(n: Net, es: seq<Event>)
    requires Run(n, es).Some? && forall i :: 0 <= i < |es| ==> !ReceiverCall(es[i])
    ensures var e, m := Drive(n.b, OutcomesB(n, es)), Run(n, es).value;
            && e.socket == m.b && e.rest == [] && e.sent == AllAddedToA(n, es)
            && m.delivered == Extended(n.delivered, e.delivered)
    decreases |es|
  {
    if es != [] {
      var m := Step(n, es[0]).value;
      ReceiverStep(n, es[0]);
      ReceiverRunsItsCall(m, es[1..]);
      if es[0].ArriveB? || es[0].TimeoutB? {
        assert OutcomesB(n, es)[1..] == OutcomesB(m, es[1..]);
      }
    }
  }

  // How the class starts the call.
  function BegunA(s: Socket, e: Event): Reaction
    requires SenderCall(e)
  {
    match e
    case Connect => BeginConnect(s)
    case Send(payload) => BeginSend(s, payload)
    case CloseA => BeginClose(s)
  }

  function BegunB(s: Socket, e: Event): Reaction
    requires ReceiverCall(e)
  {
    match e
    case Accept => BeginAccept(s)
    case Receive => BeginReceive(s)
    case CloseB => BeginClose(s)
  }

  lemma SenderBegins(n: Net, e: Event)
    requires SenderCall(e) && Step(n, e).Some?
    ensures Step(n, e).value.a == BegunA(n.a, e).socket && AddedToB(n, e) == BegunA(n.a, e).sent
  {
  }

  lemma ReceiverBegins(n: Net, e: Event)
    requires ReceiverCall(e) && Step(n, e).Some?
    ensures var m := Step(n, e).value; m.b == BegunB(n.b, e).socket && m.delivered == n.delivered
    ensures AddedToA(n, e) == BegunB(n.b, e).sent
  {
  }

  // connect_to_remote, send_data and close_connection as the network sees them and as the class computes them.
  lemma SenderCallCorresponds(n: Net, call: Event, m: Net, es: seq<Event>)
    requires SenderCall(call) && Step(n, call) == Some(m) && Run(m, es).Some?
    requires forall i :: 0 <= i < |es| ==> !SenderCall(es[i])
    ensures var e := Complete(BegunA(n.a, call), OutcomesA(m, es));
            e.socket == Run(m, es).value.a && e.sent == AddedToB(n, call) + AllAddedToB(m, es)
  {
    SenderBegins(n, call);
    SenderRunsItsCall(m, es);
  }

  // accept_connection, receive_data and close_connection likewise, with what is returned.
  lemma ReceiverCallCorresponds(n: Net, call: Event, m: Net, es: seq<Event>)
    requires ReceiverCall(call) && Step(n, call) == Some(m) && Run(m, es).Some?
    requires forall i :: 0 <= i < |es| ==> !ReceiverCall(es[i])
    ensures var e := Complete(BegunB(n.b, call), OutcomesB(m, es));
            && e.socket == Run(m, es).value.b && e.sent == AddedToA(n, call) + AllAddedToA(m, es)
            && Run(m, es).value.delivered == Extended(n.delivered, e.delivered)
  {
    ReceiverBegins(n, call);
    ReceiverRunsItsCall(m, es);
  }
}
