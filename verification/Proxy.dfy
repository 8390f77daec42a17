// mock_network.py: what the proxy does to the datagrams of two parties, and why the transport's channels are
// first-in, first-out and lossy.

module Proxy {
  import opened Prelude
  import opened Transport

  type Address = nat

  // One datagram as recvfrom() returns it, and whether simulate_lossy_send's coin keeps it.
  datatype Datagram<T> = Datagram(source: Address, data: T, kept: bool)

  // What `from` sent and the coin kept, in order.
  function Kept<T>(incoming: seq<Datagram<T>>, from: Address): seq<T>
    decreases |incoming|
  {
    if incoming == [] then []
    else
      var last := incoming[|incoming| - 1];
      var before := Kept(incoming[..|incoming| - 1], from);
      if last.source == from && last.kept then before + [last.data] else before
  }

  // Two parties, of which the client speaks first.
  ghost predicate TwoParty<T>(incoming: seq<Datagram<T>>, client: Address, server: Address) {
    && (incoming != [] ==> incoming[0].source == client)
    && forall i :: 0 <= i < |incoming| ==> incoming[i].source == client || incoming[i].source == server
  }

  // The last sender that is not the server: whom the proxy takes for its client.
  function Client<T>(incoming: seq<Datagram<T>>, server: Address): (client: Option<Address>)
    ensures client != Some(server)
    decreases |incoming|
  {
    if incoming == [] then None
    else
      var last := incoming[|incoming| - 1];
      if last.source != server then Some(last.source) else Client(incoming[..|incoming| - 1], server)
  }

  // To the server goes what anybody else sends, and what the server itself sends before anybody else has.
  function ToServer<T>(incoming: seq<Datagram<T>>, server: Address): seq<T>
    decreases |incoming|
  {
    if incoming == [] then []
    else
      var before, last := incoming[..|incoming| - 1], incoming[|incoming| - 1];
      ToServer(before, server)
      + if last.kept && (last.source != server || Client(before, server).None?) then [last.data] else []
  }

  // What the server sends goes to the client of that moment.
  function ToClient<T>(incoming: seq<Datagram<T>>, server: Address): seq<(Address, T)>
    decreases |incoming|
  {
    if incoming == [] then []
    else
      var before, last := incoming[..|incoming| - 1], incoming[|incoming| - 1];
      var client := Client(before, server);
      ToClient(before, server)
      + if last.kept && last.source == server && client.Some? then [(client.value, last.data)] else []
  }

  // udp_proxy's loop. The delay is slept inline, so it does not change any order.
  method UdpProxy<T(==)>(incoming: seq<Datagram<T>>, server: Address)
    returns (toServer: seq<T>, toClient: seq<(Address, T)>, client: Option<Address>)
    ensures toServer == ToServer(incoming, server) && toClient == ToClient(incoming, server)
    ensures client == if incoming != [] && Client(incoming, server).None? then Some(server)
                      else Client(incoming, server)
  {
    toServer, toClient, client := [], [], None;
    for k := 0 to |incoming|
      invariant toServer == ToServer(incoming[..k], server) && toClient == ToClient(incoming[..k], server)
      invariant client == if k != 0 && Client(incoming[..k], server).None? then Some(server)
                          else Client(incoming[..k], server)
    {
      var d := incoming[k];
      assert incoming[..k + 1][..k] == incoming[..k];
      if client == None { client := Some(d.source); }
      if d.source == client.value {
        if d.kept { toServer := toServer + [d.data]; }
      } else if d.source == server {
        if d.kept { toClient := toClient + [(client.value, d.data)]; }
      } else {
        client := Some(d.source);
        if d.kept { toServer := toServer + [d.data]; }
      }
    }
    assert incoming[..|incoming|] == incoming;
  }

  // With two parties of which the client speaks first, each side gets what the other sent and the coin kept.
  lemma {:induction false} TwoPartyTraffic<T>(incoming: seq<Datagram<T>>, client: Address, server: Address)
    requires client != server && TwoParty(incoming, client, server)
    ensures ToServer(incoming, server) == Kept(incoming, client)
    ensures var got, sent := ToClient(incoming, server), Kept(incoming, server);
            |got| == |sent| && forall i :: 0 <= i < |got| ==> got[i] == (client, sent[i])
    ensures incoming != [] ==> Client(incoming, server) == Some(client)
    decreases |incoming|
  {
    if incoming != [] { TwoPartyTraffic(incoming[..|incoming| - 1], client, server); }
  }

  // Whoever else speaks becomes the client: its datagram goes to the server, and what the server sends from
  // then on goes to it and to nobody before it.
  lemma {:induction false} AnswersGoToTheLatest<T>(before: seq<Datagram<T>>, d: Datagram<T>,
                                                   answers: seq<Datagram<T>>, server: Address)
    requires d.source != server && forall i :: 0 <= i < |answers| ==> answers[i].source == server
    ensures var all := before + [d] + answers;
            && Client(all, server) == Some(d.source)
            && ToServer(all, server) == ToServer(before, server) + (if d.kept then [d.data] else [])
            && |ToClient(all, server)| == |ToClient(before, server)| + |Kept(answers, server)|
            && ToClient(before, server) <= ToClient(all, server)
            && forall i :: 0 <= i < |Kept(answers, server)| ==>
                 ToClient(all, server)[|ToClient(before, server)| + i] == (d.source, Kept(answers, server)[i])
    decreases |answers|
  {
    var all := before + [d] + answers;
    if answers == [] {
      assert all[..|all| - 1] == before && all[|all| - 1] == d;
    } else {
      var k := |answers| - 1;
      assert all[..|all| - 1] == before + [d] + answers[..k] && all[|all| - 1] == answers[k];
      AnswersGoToTheLatest(before, d, answers[..k], server);
    }
  }

  // Before anybody else has spoken the server takes itself for the client.
  lemma {:induction false} ServerAlone<T>(incoming: seq<Datagram<T>>, server: Address)
    requires forall i :: 0 <= i < |incoming| ==> incoming[i].source == server
    ensures Client(incoming, server) == None
    ensures ToServer(incoming, server) == Kept(incoming, server) && ToClient(incoming, server) == []
    decreases |incoming|
  {
    if incoming != [] { ServerAlone(incoming[..|incoming| - 1], server); }
  }

  function SentBy<T>(incoming: seq<Datagram<T>>, from: Address): seq<T>
    decreases |incoming|
  {
    if incoming == [] then []
    else
      var last := incoming[|incoming| - 1];
      var before := SentBy(incoming[..|incoming| - 1], from);
      if last.source == from then before + [last.data] else before
  }

  // The removals, one after the other.
  function RemoveAll<T>(s: seq<T>, drops: seq<nat>): Option<seq<T>>
    decreases |drops|
  {
    if drops == [] then Some(s)
    else if drops[0] < |s| then RemoveAll(Remove(s, drops[0]), drops[1..])
    else None
  }

  lemma {:induction false} RemoveAllBelow<T>(s: seq<T>, x: T, drops: seq<nat>)
    requires RemoveAll(s, drops).Some?
    ensures RemoveAll(s + [x], drops) == Some(RemoveAll(s, drops).value + [x])
    decreases |drops|
  {
    if drops != [] {
      assert Remove(s + [x], drops[0]) == Remove(s, drops[0]) + [x];
      RemoveAllBelow(Remove(s, drops[0]), x, drops[1..]);
    }
  }

  lemma {:induction false} RemoveAllThen<T>(s: seq<T>, drops: seq<nat>, i: nat)
    requires RemoveAll(s, drops).Some? && i < |RemoveAll(s, drops).value|
    ensures RemoveAll(s, drops + [i]) == Some(Remove(RemoveAll(s, drops).value, i))
    decreases |drops|
  {
    if drops == [] {
      assert [i][1..] == [];
    } else {
      assert (drops + [i])[1..] == drops[1..] + [i];
      RemoveAllThen(Remove(s, drops[0]), drops[1..], i);
    }
  }

  // What arrives at one side is what the other side sent with some datagrams removed: the transport's drop
  // events, and nothing else, describe the proxy.
  lemma {:induction false} KeptByDrops<T>(incoming: seq<Datagram<T>>, from: Address) returns (drops: seq<nat>)
    ensures RemoveAll(SentBy(incoming, from), drops) == Some(Kept(incoming, from))
    decreases |incoming|
  {
    drops := [];
    if incoming != [] {
      var before, last := incoming[..|incoming| - 1], incoming[|incoming| - 1];
      drops := KeptByDrops(before, from);
      if last.source == from {
        RemoveAllBelow(SentBy(before, from), last.data, drops);
        if !last.kept {
          var k := |Kept(before, from)|;
          RemoveAllThen(SentBy(before, from) + [last.data], drops, k);
          assert Remove(Kept(before, from) + [last.data], k) == Kept(before, from);
          drops := drops + [k];
        }
      }
    }
  }
}
