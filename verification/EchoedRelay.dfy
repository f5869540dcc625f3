/** Why the next-hop theorem needs its condition: on a tree of three routers around one
    network, relaying a directed message back where it came from teaches a wrong next router. */
module EchoedRelay {
  import opened Octets
  import opened NpduCodec
  import opened RoutingTable
  import opened Routing
  import opened Topology
  import opened Internetwork
  import opened NextHops
  import opened Completion

  // Routers 0, 1 and 2 share network 2 and lead to networks 1, 3 and 4.
  const NETS_OF_0: map<Net, Mac> := map[1 := [0x01], 2 := [0x0A]]
  const NETS_OF_1: map<Net, Mac> := map[2 := [0x0B], 3 := [0x03]]
  const NETS_OF_2: map<Net, Mac> := map[2 := [0x0C], 4 := [0x04]]
  const STAR: Topology := [NETS_OF_0, NETS_OF_1, NETS_OF_2]

  const TABLE_0: Table := [Port(1, [0x01], []), Port(2, [0x0A], [])]
  const TABLE_1: Table := [Port(2, [0x0B], []), Port(3, [0x03], [])]
  const TABLE_2: Table := [Port(2, [0x0C], []), Port(4, [0x04], [])]

  /** Router 1 lists network 3 on network 2. */
  const LISTING: Frame := Frame(2, [0x0B], ControlMessage(I_AM_ROUTER, EncodeNets([3])))

  /** A station on network 4 writes to a station on network 3; router 2 floods it; router 0 echoes it. */
  const LETTER: Npdu := Npdu(false, 0, 3, [0x99], 0, [], 255, Apdu([0x10]))
  const WRITTEN: Frame := Frame(4, [0x44], LETTER)
  const FLOODED: Frame := Frame(2, [0x0C], LETTER.(snet := 4, sadr := [0x44], hop := 254))
  const ECHOED: Frame := Frame(2, [0x0A], LETTER.(snet := 4, sadr := [0x44], hop := 253))

  const LEARNED_0: Table := [Port(1, [0x01], []), Port(2, [0x0A], [Route(3, [0x0B])])]
  const RELAYED_0: Table := [Port(1, [0x01], []), Port(2, [0x0A], [Route(3, [0x0B]), Route(4, [0x0C])])]
  const MISLED_1: Table := [Port(2, [0x0B], [Route(4, [0x0A])]), Port(3, [0x03], [])]

  lemma ListingIsSent()
    ensures IAmRouter(TABLE_1, 2, 0) == [Send(2, [], LISTING.npdu)]
  {
    assert TABLE_1[1..] == [Port(3, [0x03], [])] && TABLE_1[1..][1..] == [];
    assert Announcement(TABLE_1, 2) == [3];
    assert PortNets(TABLE_1) == [2, 3];
  }

  lemma Router0Learns()
    ensures Handle(TABLE_0, 2, [0x0B], LISTING.npdu) == Outcome(LEARNED_0, [])
  {
    NetsRoundTrip([3]);
    assert [3][1..] == [];
    assert TABLE_0[0].Nets() == [1] && TABLE_0[1].Nets() == [2];
    FindIs(TABLE_0, 3, 2);
    FindIs(TABLE_0, 2, 1);
    assert TABLE_0[1].dnets + [Route(3, [0x0B])] == LEARNED_0[1].dnets;
    assert DnetAdd(TABLE_0, 2, 3, [0x0B]) == LEARNED_0;
  }

  /** What a router does with a message for a network it does not know. */
  lemma UnknownIsFlooded(t: Table, snet: Net, mac: Mac, m: Npdu, n: Net)
    requires m.content.Apdu? && m.dnet != 0 && m.dnet != BROADCAST && m.hop > 1 && m.snet == 0
    requires !Known(t, m.dnet) && n in PortNets(t) && n != snet
    ensures Handle(t, snet, mac, m).table == t
    ensures Send(n, [], Relayed(snet, mac, m, m.dnet, m.dadr)) in Handle(t, snet, mac, m).sends
  {
    var others := Others(PortNets(t), snet);
    var copies := SendAll(others, [], Relayed(snet, mac, m, m.dnet, m.dadr));
    var ask := WhoIsRouter(t, 0, m.dnet);
    assert n in others;
    var i: nat :| i < |others| && others[i] == n;
    assert (copies + ask)[i] == copies[i] == Send(n, [], Relayed(snet, mac, m, m.dnet, m.dadr));
  }

  lemma Router2Floods()
    ensures Handle(TABLE_2, 4, [0x44], LETTER).table == TABLE_2
    ensures Send(2, [], FLOODED.npdu) in Handle(TABLE_2, 4, [0x44], LETTER).sends
  {
    FindIs(TABLE_2, 3, 2);
    assert PortNets(TABLE_2)[0] == 2;
    UnknownIsFlooded(TABLE_2, 4, [0x44], LETTER, 2);
  }

  lemma Router0Echoes()
    ensures Handle(LEARNED_0, 2, [0x0C], FLOODED.npdu) == Outcome(RELAYED_0, [Send(2, [0x0B], ECHOED.npdu)])
    ensures RelaysBack(LEARNED_0, 2, [0x0C], FLOODED.npdu)
  {
    assert LEARNED_0[0].Nets() == [1] && LEARNED_0[1].Nets() == [2, 3];
    FindIs(LEARNED_0, 3, 1);
    FindIs(LEARNED_0, 4, 2);
    FindIs(LEARNED_0, 2, 1);
    assert Resolve(LEARNED_0, 3) == Via(2, Through([0x0B]));
    assert LEARNED_0[1].dnets + [Route(4, [0x0C])] == RELAYED_0[1].dnets;
    assert DnetAdd(LEARNED_0, 2, 4, [0x0C]) == RELAYED_0;
  }

  lemma Router1IsMisled()
    ensures Handle(TABLE_1, 2, [0x0A], ECHOED.npdu).table == MISLED_1
    ensures Known(MISLED_1, 4) && Resolve(MISLED_1, 4) == Via(2, Through([0x0A]))
  {
    assert TABLE_1[0].Nets() == [2] && TABLE_1[1].Nets() == [3];
    FindIs(TABLE_1, 3, 1);
    FindIs(TABLE_1, 4, 2);
    FindIs(TABLE_1, 2, 0);
    assert TABLE_1[0].dnets + [Route(4, [0x0A])] == MISLED_1[0].dnets;
    assert DnetAdd(TABLE_1, 2, 4, [0x0A]) == MISLED_1;
    assert MISLED_1[0].Nets() == [2, 4];
    FindIs(MISLED_1, 4, 0);
  }

  // ----- the star is a tree -----

  /** A set of networks no router but `r` leads out of. */
  ghost predicate Closed(topo: Topology, r: nat, s: set<Net>) {
    forall x, n, m :: 0 <= x < |topo| && x != r && n in topo[x] && m in topo[x] && n in s ==> m in s
  }

  lemma {:induction false} StaysIn(topo: Topology, r: nat, s: set<Net>, a: Net, hops: seq<Hop>, b: Net)
    requires Closed(topo, r, s) && a in s && Walk(topo, r, a, hops, b)
    ensures b in s
    decreases |hops|
  {
    if hops != [] { StaysIn(topo, r, s, hops[0].net, hops[1..], b); }
  }

  lemma LeafIsCutOff(r: nat, leaf: Net, b: Net)
    requires r < 3 && leaf == [1, 3, 4][r] && b != leaf
    ensures !SameSide(STAR, r, leaf, b) && !SameSide(STAR, r, b, leaf)
  {
    assert Closed(STAR, r, {leaf});
    if SameSide(STAR, r, b, leaf) { SameSideSym(STAR, r, b, leaf); }
    if hops :| Walk(STAR, r, leaf, hops, b) {
      StaysIn(STAR, r, {leaf}, leaf, hops, b);
    }
  }

  lemma StarIsTree()
    ensures Acyclic(STAR)
  {
    forall r, p, q | 0 <= r < |STAR| && p in STAR[r] && q in STAR[r] && SameSide(STAR, r, p, q) ensures p == q {
      var leaf: Net := [1, 3, 4][r];
      if p != q {
        LeafIsCutOff(r, leaf, if p == leaf then q else p);
      }
    }
  }

  // ----- the run -----

  lemma TwoPorts(topo: Topology, t: Table, r: nat, p: Net, q: Net)
    requires r < |topo| && topo[r].Keys == {p, q} && p != q && p != 0 && q != 0
    requires |t| == 2 && t[0].net == p && t[1].net == q && t[0].dnets == [] && t[1].dnets == []
    ensures Attached(topo, t, r) && forall i :: 0 <= i < |t| ==> t[i].dnets == []
  {
    assert t[0].Nets() == [p] && t[1].Nets() == [q];
    assert PortNets(t) == [p, q];
  }

  lemma StartsWell()
    ensures Start(STAR, State([TABLE_0, TABLE_1, TABLE_2], {}))
  {
    TwoPorts(STAR, TABLE_0, 0, 1, 2);
    TwoPorts(STAR, TABLE_1, 1, 2, 3);
    TwoPorts(STAR, TABLE_2, 2, 2, 4);
  }

  lemma SentIsOnTheWire(ports: map<Net, Mac>, sends: seq<Send>, s: Send)
    requires s in sends && s.net in ports
    ensures Frame(s.net, ports[s.net], s.npdu) in FramesOf(ports, sends)
  {
  }

  lemma Event1(st: State)
    requires st.tables == [TABLE_0, TABLE_1, TABLE_2]
    ensures Enabled(STAR, st, Announce(1, 2))
    ensures var st' := After(STAR, st, Announce(1, 2)); st'.tables == st.tables && LISTING in st'.wire
  {
    ListingIsSent();
    SentIsOnTheWire(NETS_OF_1, [Send(2, [], LISTING.npdu)], Send(2, [], LISTING.npdu));
  }

  lemma Event2(st: State)
    requires st.tables == [TABLE_0, TABLE_1, TABLE_2] && LISTING in st.wire
    ensures Enabled(STAR, st, Receive(0, LISTING))
    ensures After(STAR, st, Receive(0, LISTING)).tables == [LEARNED_0, TABLE_1, TABLE_2]
  {
    Router0Learns();
  }

  lemma Event4(st: State)
    requires st.tables == [LEARNED_0, TABLE_1, TABLE_2] && WRITTEN in st.wire
    ensures Enabled(STAR, st, Receive(2, WRITTEN))
    ensures var st' := After(STAR, st, Receive(2, WRITTEN)); st'.tables == st.tables && FLOODED in st'.wire
  {
    Router2Floods();
    SentIsOnTheWire(NETS_OF_2, Handle(TABLE_2, 4, [0x44], LETTER).sends, Send(2, [], FLOODED.npdu));
  }

  lemma Event5(st: State)
    requires st.tables == [LEARNED_0, TABLE_1, TABLE_2] && FLOODED in st.wire
    ensures Enabled(STAR, st, Receive(0, FLOODED))
    ensures var st' := After(STAR, st, Receive(0, FLOODED));
            st'.tables == [RELAYED_0, TABLE_1, TABLE_2] && ECHOED in st'.wire
  {
    Router0Echoes();
    SentIsOnTheWire(NETS_OF_0, [Send(2, [0x0B], ECHOED.npdu)], Send(2, [0x0B], ECHOED.npdu));
  }

  lemma Event6(st: State)
    requires st.tables == [RELAYED_0, TABLE_1, TABLE_2] && ECHOED in st.wire
    ensures Enabled(STAR, st, Receive(1, ECHOED))
    ensures After(STAR, st, Receive(1, ECHOED)).tables == [RELAYED_0, MISLED_1, TABLE_2]
  {
    Router1IsMisled();
  }

  lemma TheRun() returns (events: seq<Event>, st': State)
    ensures Reaches(STAR, State([TABLE_0, TABLE_1, TABLE_2], {}), events, st')
    ensures st'.tables == [RELAYED_0, MISLED_1, TABLE_2]
  {
    var s0 := State([TABLE_0, TABLE_1, TABLE_2], {});
    Event1(s0);
    var s1 := After(STAR, s0, Announce(1, 2));
    Event2(s1);
    var s2 := After(STAR, s1, Receive(0, LISTING));
    var s3 := After(STAR, s2, Inject(WRITTEN));
    Event4(s3);
    var s4 := After(STAR, s3, Receive(2, WRITTEN));
    Event5(s4);
    var s5 := After(STAR, s4, Receive(0, FLOODED));
    Event6(s5);
    st' := After(STAR, s5, Receive(1, ECHOED));
    events := [];
    events := Prepended(s5, Receive(1, ECHOED), events, st');
    events := Prepended(s4, Receive(0, FLOODED), events, st');
    events := Prepended(s3, Receive(2, WRITTEN), events, st');
    events := Prepended(s2, Inject(WRITTEN), events, st');
    events := Prepended(s1, Receive(0, LISTING), events, st');
    events := Prepended(s0, Announce(1, 2), events, st');
  }

  lemma Prepended(st: State, e: Event, rest: seq<Event>, st': State) returns (events: seq<Event>)
    requires Enabled(STAR, st, e) && Reaches(STAR, After(STAR, st, e), rest, st')
    ensures Reaches(STAR, st, events, st')
  {
    Prepend(STAR, st, e, rest, st');
    events := [e] + rest;
  }

  lemma Router1SentAstray()
    ensures Known(MISLED_1, 4) && Resolve(MISLED_1, 4).port == 2 && !NextHopRight(STAR, 1, MISLED_1, 4)
    ensures SameSide(STAR, 1, 2, 4)
  {
    Router1IsMisled();
    Adjacent(STAR, 0, 2, 2, 4);
    Adjacent(STAR, 1, 2, 2, 4);
  }

  /** Started properly, on a tree, router 1 ends up sending for network 4 to router 0, which does
      not lead there; its port for network 4 is right all the same. */
  lemma EchoMisleads() returns (st: State, events: seq<Event>, st': State)
    ensures Acyclic(STAR) && Start(STAR, st) && Reaches(STAR, st, events, st') && |st'.tables| == 3
    ensures Known(st'.tables[1], 4) && !NextHopRight(STAR, 1, st'.tables[1], 4)
    ensures Resolve(st'.tables[1], 4).port == 2 && SameSide(STAR, 1, 2, 4)
  {
    StarIsTree();
    StartsWell();
    st := State([TABLE_0, TABLE_1, TABLE_2], {});
    events, st' := TheRun();
    Router1SentAstray();
  }
}
