/** What a router owes its networks for each message it takes, said port by port and field by field. */
module RouterLaws {
  import opened Octets
  import opened NpduCodec
  import opened RoutingTable
  import opened Routing

  /** What goes out on port `p`. */
  function OnPort(sends: seq<Send>, p: Net): seq<Send> {
    if sends == [] then [] else (if sends[0].net == p then [sends[0]] else []) + OnPort(sends[1..], p)
  }

  /** The tables of running routers: nothing twice, and no port on network 0. */
  predicate Sound(t: Table, snet: Net) {
    Distinct(t) && 0 !in PortNets(t) && snet in PortNets(t)
  }

  lemma Heads<T>(a: seq<T>, b: seq<T>)
    requires a != []
    ensures a + b != [] && (a + b)[0] == a[0] && (a + b)[1..] == a[1..] + b
  {
  }

  lemma {:induction false} OnPortConcat(a: seq<Send>, b: seq<Send>, p: Net)
    ensures OnPort(a + b, p) == OnPort(a, p) + OnPort(b, p)
  {
    if a == [] {
      assert a + b == b;
    } else {
      Heads(a, b);
      OnPortConcat(a[1..], b, p);
      Associate(if a[0].net == p then [a[0]] else [], OnPort(a[1..], p), OnPort(b, p));
    }
  }

  lemma {:induction false} SendAllOn(nets: seq<Net>, mac: Mac, m: Npdu, p: Net)
    requires NoDup(nets)
    ensures OnPort(SendAll(nets, mac, m), p) == if p in nets then [Send(p, mac, m)] else []
  {
    if nets != [] {
      SendAllOn(nets[1..], mac, m, p);
      assert SendAll(nets, mac, m)[1..] == SendAll(nets[1..], mac, m);
      assert p in nets <==> p == nets[0] || p in nets[1..];
      assert nets[0] !in nets[1..];
    }
  }

  lemma {:induction false} OthersNoDup(nets: seq<Net>, snet: Net)
    requires NoDup(nets)
    ensures NoDup(Others(nets, snet))
  {
    if nets != [] {
      OthersNoDup(nets[1..], snet);
      assert forall n :: n in nets[1..] ==> n != nets[0];
      NoDupConcat(if nets[0] != snet then [nets[0]] else [], Others(nets[1..], snet));
    }
  }

  lemma PortNetsNoDup(t: Table)
    requires Distinct(t)
    ensures NoDup(PortNets(t))
  {
    forall i, j | 0 <= i < j < |t| ensures t[i].net != t[j].net {
      assert t[i].Nets()[0] in t[i].Nets() && t[j].Nets()[0] in t[j].Nets();
      assert Disjoint(t[i].Nets(), t[j].Nets());
    }
  }

  /** One copy on each port but the arrival port, and none there. */
  lemma FloodOn(t: Table, snet: Net, m: Npdu, p: Net)
    requires Distinct(t)
    ensures OnPort(SendAll(Others(PortNets(t), snet), [], m), p)
            == if p in PortNets(t) && p != snet then [Send(p, [], m)] else []
  {
    PortNetsNoDup(t);
    OthersNoDup(PortNets(t), snet);
    SendAllOn(Others(PortNets(t), snet), [], m, p);
  }

  // ----- questions -----

  /** Who-Is-Router-To-Network: for one network or, without a number, for all. */
  function Question(net: Net): Npdu {
    Npdu(false, 0, 0xFFFF, [], 0, [], 255, Control(0, 0, if net != 0 then [net / 0x100, net % 0x100] else []))
  }

  lemma AskedOn(t: Table, p: Net, net: Net)
    requires p in PortNets(t) && p != 0
    ensures WhoIsRouter(t, p, net) == [Send(p, [], Question(net))]
  {
  }

  lemma {:induction false} OnEachPort(t: Table, nets: seq<Net>, net: Net)
    requires forall n :: n in nets ==> n in PortNets(t) && n != 0
    ensures WhoIsOnEach(t, nets, net) == SendAll(nets, [], Question(net))
  {
    if nets != [] {
      var q := Question(net);
      assert nets[0] in nets;
      OnEachPort(t, nets[1..], net);
      AskedOn(t, nets[0], net);
      assert SendAll(nets, [], q) == [Send(nets[0], [], q)] + SendAll(nets[1..], [], q);
    }
  }

  /** A question for a network the router does not know is passed on, once on every port but the arrival port,
      and is neither answered nor put there again. */
  lemma UnknownIsAsked(t: Table, snet: Net, mac: Mac, m: Npdu, net: Net, p: Net)
    requires Sound(t, snet) && !Known(t, net) && (m.dnet == 0 || m.dnet == BROADCAST)
    requires m.content == Control(WHO_IS_ROUTER, 0, EncodeNet(net))
    ensures Handle(t, snet, mac, m).table == t
    ensures OnPort(Handle(t, snet, mac, m).sends, p)
            == if p in PortNets(t) && p != snet then [Send(p, [], Question(net))] else []
  {
    NetRoundTrip(net, []);
    assert EncodeNet(net) + [] == EncodeNet(net);
    OnEachPort(t, Others(PortNets(t), snet), net);
    FloodOn(t, snet, Question(net), p);
  }

  /** A question without a number is answered on its arrival port, and nowhere else, with every network reached
      through another port. */
  lemma ListIsAnswered(t: Table, snet: Net, mac: Mac, m: Npdu)
    requires Sound(t, snet) && (m.dnet == 0 || m.dnet == BROADCAST)
    requires m.content.Control? && m.content.kind == WHO_IS_ROUTER && |m.content.payload| < 2
    ensures Handle(t, snet, mac, m)
            == Outcome(t, [Send(snet, [], Npdu(false, 0, 0xFFFF, [], 0, [], 255,
                                               Control(1, 0, EncodeNets(Announcement(t, snet)))))])
  {
  }

  // ----- directed messages -----

  /** A message with its source named: as it names it or, if it names none, the station it was heard from. */
  function Named(snet: Net, mac: Mac, m: Npdu, dnet: Net, dadr: Mac, hop: Octet): Npdu {
    Npdu(m.expectingReply, m.priority, dnet, dadr, if m.snet != 0 then m.snet else snet,
         if m.snet != 0 then m.sadr else mac, hop, m.content)
  }

  /** A message for a remote network, its source given. */
  predicate Directed(snet: Net, mac: Mac, m: Npdu) {
    && m.content.Apdu? && m.dnet != 0 && m.dnet != BROADCAST
    && snet != 0 && mac != [] && (m.snet != 0 ==> m.sadr != [])
  }

  lemma RelayedIsNamed(snet: Net, mac: Mac, m: Npdu)
    requires Directed(snet, mac, m) && m.hop > 1
    ensures Relayed(snet, mac, m, 0, []) == Named(snet, mac, m, 0, [], 0)
    ensures Relayed(snet, mac, m, m.dnet, m.dadr) == Named(snet, mac, m, m.dnet, m.dadr, m.hop - 1)
  {
  }

  /** For a network of its own the router gives it to the addressed station; for one it has learned it gives it,
      one hop less, to the next router; and if the hop count is used up it does nothing. */
  lemma KnownIsRelayed(t: Table, snet: Net, mac: Mac, m: Npdu)
    requires Sound(t, snet) && Directed(snet, mac, m) && Known(t, m.dnet)
    ensures Handle(t, snet, mac, m).sends
            == if m.hop <= 1 then []
               else if HasPort(t, m.dnet) then [Send(m.dnet, m.dadr, Named(snet, mac, m, 0, [], 0))]
               else [Send(Resolve(t, m.dnet).port, Resolve(t, m.dnet).hop.mac,
                          Named(snet, mac, m, m.dnet, m.dadr, m.hop - 1))]
  {
    if m.hop > 1 { RelayedIsNamed(snet, mac, m); }
    if HasPort(t, m.dnet) {
      var j :| 0 <= j < |t| && t[j].net == m.dnet;
      assert t[j].Nets()[0] == m.dnet;
      assert forall k :: 0 <= k < j ==> Disjoint(t[k].Nets(), t[j].Nets());
      FindIs(t, m.dnet, j);
    }
  }

  /** For a network it does not know the router puts one copy, one hop less, on every port but the arrival port,
      and on every port a question for the network. */
  lemma UnknownIsFlooded(t: Table, snet: Net, mac: Mac, m: Npdu, p: Net)
    requires Sound(t, snet) && Directed(snet, mac, m) && !Known(t, m.dnet) && m.hop > 1
    ensures OnPort(Handle(t, snet, mac, m).sends, p)
            == (if p in PortNets(t) && p != snet then [Send(p, [], Named(snet, mac, m, m.dnet, m.dadr, m.hop - 1))]
                else [])
               + if p in PortNets(t) then [Send(p, [], Question(m.dnet))] else []
  {
    RelayedIsNamed(snet, mac, m);
    var copies := SendAll(Others(PortNets(t), snet), [], Relayed(snet, mac, m, m.dnet, m.dadr));
    OnPortConcat(copies, WhoIsRouter(t, 0, m.dnet), p);
    FloodOn(t, snet, Relayed(snet, mac, m, m.dnet, m.dadr), p);
    PortNetsNoDup(t);
    SendAllOn(PortNets(t), [], Question(m.dnet), p);
    assert WhoIsRouter(t, 0, m.dnet) == SendAll(PortNets(t), [], Question(m.dnet));
  }

  /** A global broadcast, whatever its hop count, goes out once on every port but the arrival port; but a confirmed
      request that is broadcast, and a message that names no network, stay where they are. */
  lemma BroadcastIsRelayed(t: Table, snet: Net, mac: Mac, m: Npdu, p: Net)
    requires Sound(t, snet) && m.content.Apdu? && mac != [] && (m.snet != 0 ==> m.sadr != [])
    ensures m.dnet == BROADCAST ==>
              OnPort(Handle(t, snet, mac, m).sends, p)
              == if p in PortNets(t) && p != snet && (m.content.apdu == [] || m.content.apdu[0] >= 0x10)
                 then [Send(p, [], Named(snet, mac, m, BROADCAST, [], if m.hop == 0 then 255 else m.hop - 1))]
                 else []
    ensures m.dnet == 0 && !Known(t, 0) ==> Handle(t, snet, mac, m).sends == []
  {
    if m.dnet == BROADCAST {
      var copy := Relayed(snet, mac, m, BROADCAST, []);
      BroadcastIsNamed(snet, mac, m);
      BroadcastSends(t, snet, mac, m);
      FloodOn(t, snet, copy, p);
    }
  }

  lemma BroadcastIsNamed(snet: Net, mac: Mac, m: Npdu)
    requires snet != 0 && mac != [] && (m.snet != 0 ==> m.sadr != [])
    ensures Relayed(snet, mac, m, BROADCAST, [])
            == Named(snet, mac, m, BROADCAST, [], if m.hop == 0 then 255 else m.hop - 1)
  {
  }

  lemma BroadcastSends(t: Table, snet: Net, mac: Mac, m: Npdu)
    requires m.content.Apdu? && m.dnet == BROADCAST
    ensures Handle(t, snet, mac, m).sends
            == if m.content.apdu != [] && m.content.apdu[0] < 0x10 then []
               else SendAll(Others(PortNets(t), snet), [], Relayed(snet, mac, m, BROADCAST, []))
  {
  }

  // ----- learning -----

  /** Messages whose claims the router does not take up. */
  predicate PassedOver(t: Table, m: Npdu) {
    if m.content.Control? then m.dnet != 0 && m.dnet != BROADCAST
    else
      || (m.dnet != 0 && m.dnet != BROADCAST && m.hop <= 1)
      || (m.dnet == BROADCAST && Confirmed(m.content.apdu))
      || (m.dnet == 0 && !Known(t, 0))
  }

  /** The networks a message says lie behind its sender. */
  function Claimed(m: Npdu): seq<Net> {
    match m.content
    case Apdu(_) => if m.snet != 0 then [m.snet] else []
    case Control(kind, _, payload) =>
      if kind == I_AM_ROUTER then DecodeNets(payload)
      else if kind == INIT_RT_TABLE && |payload| >= 3 && payload[0] != 0 then [DecodeNet(payload[1..])]
      else []
  }

  lemma OneLearned(t: Table, snet: Net, net: Net, mac: Mac)
    ensures DnetAdd(t, snet, net, mac) == LearnAll(t, snet, [net], mac)
  {
    assert [net][1..] == [];
  }

  lemma NothingLearned(m: Routes, via: Via)
    ensures Extend(m, [], via) == m
  {
  }

  /** Whatever the message, the table becomes the old one and exactly the unknown networks the message claims, all
      under the arrival port with the sender for next router; a message that is passed over teaches nothing. */
  lemma WhatIsLearned(t: Table, snet: Net, mac: Mac, m: Npdu)
    requires Sound(t, snet)
    ensures AsMap(Handle(t, snet, mac, m).table)
            == Extend(AsMap(t), if PassedOver(t, m) then [] else Claimed(m), Via(snet, Through(mac)))
  {
    PortIs(t, snet);
    if PassedOver(t, m) || Claimed(m) == [] {
      SameTable(t, snet, mac, m);
      NothingLearned(AsMap(t), Via(snet, Through(mac)));
    } else {
      TableIs(t, snet, mac, m);
      LearnAllExtends(t, snet, Claimed(m), mac);
    }
  }

  lemma PortIs(t: Table, snet: Net)
    requires Sound(t, snet)
    ensures Known(t, snet) && Resolve(t, snet) == Via(snet, Direct)
  {
    var i :| 0 <= i < |t| && PortNets(t)[i] == snet;
    assert t[i].Nets()[0] == snet;
    assert forall j :: 0 <= j < i ==> Disjoint(t[j].Nets(), t[i].Nets());
    FindIs(t, snet, i);
  }

  lemma TableIs(t: Table, snet: Net, mac: Mac, m: Npdu)
    requires !PassedOver(t, m) && Claimed(m) != []
    ensures Handle(t, snet, mac, m).table == LearnAll(t, snet, Claimed(m), mac)
  {
    if !(m.content.Control? && m.content.kind == I_AM_ROUTER) {
      OneLearned(t, snet, Claimed(m)[0], mac);
      assert Claimed(m) == [Claimed(m)[0]];
    }
  }

  lemma SameTable(t: Table, snet: Net, mac: Mac, m: Npdu)
    requires PassedOver(t, m) || Claimed(m) == []
    ensures Handle(t, snet, mac, m).table == t
  {
  }

  // ----- other network-layer messages -----

  /** The message types a router knows of and has no answer to. */
  predicate Silent(kind: Octet) {
    kind in {1, 2, 3, 4, 5, 7, 8, 9}
  }

  /** A message type nobody has assigned gets a Reject that names the reason, to the station that sent it; the
      types that are known but not served, and a message for one remote network, get nothing. */
  lemma UnknownTypeIsRejected(t: Table, snet: Net, mac: Mac, m: Npdu)
    requires Sound(t, snet) && m.content.Control? && (m.content.kind > 9 || Silent(m.content.kind))
    ensures Handle(t, snet, mac, m).sends
            == if Silent(m.content.kind) || (m.dnet != 0 && m.dnet != BROADCAST) then []
               else [Send(snet, mac, Npdu(false, 0, m.snet, if m.snet != 0 then m.sadr else [], 0, [],
                                          if m.snet != 0 then 255 else 0, Control(3, 0, [3])))]
  {
  }

  /** But a Reject for a message that another router relayed comes to nothing: no router passes it on. */
  lemma RejectIsNotRelayed(t: Table, snet: Net, mac: Mac, m: Npdu, u: Table, unet: Net, umac: Mac, s: Send)
    requires Sound(t, snet) && m.content.Control? && m.content.kind > 9 && (m.dnet == 0 || m.dnet == BROADCAST)
    requires m.snet != 0 && m.snet != BROADCAST && s in Handle(t, snet, mac, m).sends
    ensures Handle(u, unet, umac, s.npdu) == Outcome(u, [])
  {
  }

  // ----- the router's own application layer -----

  /** It is given exactly the APDUs that are local or broadcast, but no confirmed request that is broadcast, each
      with the station it came from and the source it names. */
  lemma WhatIsHanded(mac: Mac, m: Npdu, h: Handed)
    ensures h in HandOver(mac, m)
            <==> && m.content == Apdu(h.apdu) && h.mac == mac && h.snet == m.snet && h.sadr == m.sadr
                 && (m.dnet == 0 || (m.dnet == BROADCAST && (h.apdu == [] || h.apdu[0] >= 0x10)))
    ensures |HandOver(mac, m)| <= 1
  {
  }
}
