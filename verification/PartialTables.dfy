/** Tables need not be complete for a directed message to arrive: where a router does not know the network it puts
    the message on all its other networks, and one of the copies is on the way. */
module PartialTables {
  import opened Octets
  import opened NpduCodec
  import opened RoutingTable
  import opened Routing
  import opened RouterLaws
  import opened Topology
  import opened Internetwork
  import opened Convergence
  import opened NextHops
  import opened DirectedRelay
  import opened TreeDelivery

  /** The part of `Ready` that every run without relaying back keeps. */
  ghost predicate Correct(topo: Topology, st: State) {
    Right(topo, st) && Acyclic(topo) && DistinctAddresses(topo) && NamedStations(topo)
  }

  lemma {:induction false} FoundOnPort(sends: seq<Send>, p: Net, s: Send)
    requires s in OnPort(sends, p)
    ensures s in sends
  {
    if s !in (if sends[0].net == p then [sends[0]] else []) {
      FoundOnPort(sends[1..], p, s);
    }
  }

  lemma FirstHops(topo: Topology, f: Frame, hops: seq<Hop>)
    requires |hops| > 1 && SimpleWalk(topo, f.net, hops, f.npdu.dnet)
    ensures hops[0].router < |topo| && hops[0].net in topo[hops[0].router] && hops[0].net != f.net
    ensures hops[1].router < |topo| && hops[0].net in topo[hops[1].router]
  {
  }

  /** A router that does not know the network puts a copy on each port but the arrival port. */
  lemma FloodHas(t: Table, f: Frame, c: Net)
    requires Sound(t, f.net) && c in PortNets(t) && c != f.net && !Known(t, f.npdu.dnet)
    requires TreeDelivery.Addressed(f) && DirectedRelay.Directed(f.npdu) && f.npdu.hop > 1
    ensures Send(c, [], Underway(f, f.npdu.hop - 1)) in Handle(t, f.net, f.sender, f.npdu).sends
  {
    var s := Send(c, [], Underway(f, f.npdu.hop - 1));
    UnknownIsFlooded(t, f.net, f.sender, f.npdu, c);
    assert s in OnPort(Handle(t, f.net, f.sender, f.npdu).sends, c);
    FoundOnPort(Handle(t, f.net, f.sender, f.npdu).sends, c, s);
  }

  /** Known or not, the network the walk leaves by gets a copy: for the next router of the walk, or for all there. */
  lemma PutOnTheWay(topo: Topology, st: State, r: nat, f: Frame, hops: seq<Hop>) returns (s: Send)
    requires Correct(topo, st) && Enabled(topo, st, Receive(r, f))
    requires TreeDelivery.Addressed(f) && DirectedRelay.Directed(f.npdu) && f.npdu.hop > 1
    requires |hops| > 1 && hops[0].router == r && SimpleWalk(topo, f.net, hops, f.npdu.dnet)
    ensures s in Handle(st.tables[r], f.net, f.sender, f.npdu).sends
    ensures s.net == hops[0].net && s.npdu == Underway(f, f.npdu.hop - 1)
    ensures hops[1].router < |topo| && s.net in topo[hops[1].router]
    ensures s.mac == [] || s.mac == topo[hops[1].router][s.net]
    ensures !RelaysBack(st.tables[r], f.net, f.sender, f.npdu)
  {
    FirstHops(topo, f, hops);
    if Known(st.tables[r], f.npdu.dnet) {
      NextHopOn(topo, st, r, f, hops);
      RelayedCarries(f);
      s := Send(hops[0].net, topo[hops[1].router][hops[0].net], Underway(f, f.npdu.hop - 1));
    } else {
      s := Send(hops[0].net, [], Underway(f, f.npdu.hop - 1));
      FloodHas(st.tables[r], f, hops[0].net);
    }
  }

  lemma OnWire(topo: Topology, st: State, r: nat, f: Frame, s: Send)
    requires Enabled(topo, st, Receive(r, f)) && s in Handle(st.tables[r], f.net, f.sender, f.npdu).sends
    requires s.net in topo[r]
    ensures Frame(s.net, topo[r][s.net], s.npdu) in After(topo, st, Receive(r, f)).wire
  {
    var sends := Handle(st.tables[r], f.net, f.sender, f.npdu).sends;
    assert Frame(s.net, topo[r][s.net], s.npdu) in FramesOf(topo[r], sends);
  }

  /** The copy is there for the next router of the walk to take. */
  lemma NextTakes(topo: Topology, st: State, r: nat, f: Frame, hops: seq<Hop>) returns (st': State, f': Frame)
    requires Correct(topo, st) && Enabled(topo, st, Receive(r, f))
    requires TreeDelivery.Addressed(f) && DirectedRelay.Directed(f.npdu) && f.npdu.hop > 1
    requires |hops| > 1 && hops[0].router == r && SimpleWalk(topo, f.net, hops, f.npdu.dnet)
    ensures st' == After(topo, st, Receive(r, f)) && Correct(topo, st')
    ensures r < |topo| && hops[0].net in topo[r] && f' == CopyOn(topo, f, hops, 0)
    ensures Enabled(topo, st', Receive(hops[1].router, f'))
    ensures TreeDelivery.Addressed(f') && DirectedRelay.Directed(f'.npdu) && LastCopy(f') == LastCopy(f)
    ensures forall hop: Octet :: Underway(f', hop) == Underway(f, hop)
  {
    var s := PutOnTheWay(topo, st, r, f, hops);
    st' := After(topo, st, Receive(r, f));
    f' := Frame(s.net, topo[r][s.net], s.npdu);
    OnWire(topo, st, r, f, s);
    StepKeepsRight(topo, st, Receive(r, f));
    CopyKept(f, f');
  }

  /** The receptions by which the message goes along the walk. */
  ghost predicate Along(hops: seq<Hop>, events: seq<Event>) {
    |events| < |hops| && forall i :: 0 <= i < |events| ==> events[i].Receive? && events[i].router == hops[i].router
  }

  lemma OneReceptionMore(topo: Topology, st: State, r: nat, f: Frame, hops: seq<Hop>, rest: seq<Event>, st1: State,
                         st': State)
    requires Enabled(topo, st, Receive(r, f)) && st1 == After(topo, st, Receive(r, f)) && Reaches(topo, st1, rest, st')
    requires |hops| > 1 && hops[0].router == r && Along(hops[1..], rest)
    ensures Reaches(topo, st, [Receive(r, f)] + rest, st') && Along(hops, [Receive(r, f)] + rest)
  {
    var events := [Receive(r, f)] + rest;
    assert events[1..] == rest;
    forall i | 0 <= i < |events| ensures events[i].Receive? && events[i].router == hops[i].router {
      if i > 0 { assert events[i] == rest[i - 1] && hops[i] == hops[1..][i - 1]; }
    }
  }

  /** On a tree, whatever the tables know, as long as what they know is right: a message whose hop count is greater
      than the number of routers on a way to its network arrives along that way, each router taking it from the one
      before, and the last puts it on its network for the addressed station as it was sent. */
  lemma {:induction false} ArrivesAnyway(topo: Topology, st: State, r: nat, f: Frame, hops: seq<Hop>)
    returns (events: seq<Event>, st': State, g: Frame)
    requires Correct(topo, st) && Enabled(topo, st, Receive(r, f))
    requires TreeDelivery.Addressed(f) && DirectedRelay.Directed(f.npdu) && f.npdu.hop > |hops|
    requires hops != [] && hops[0].router == r && SimpleWalk(topo, f.net, hops, f.npdu.dnet)
    ensures Reaches(topo, st, events, st') && Along(hops, events) && |events| == |hops| - 1
    ensures var y := hops[|hops| - 1].router;
            && Enabled(topo, st', Receive(y, g))
            && Handle(st'.tables[y], g.net, g.sender, g.npdu).sends == [LastCopy(f)]
    decreases |hops|
  {
    if |hops| == 1 {
      assert hops[1..] == [];
      LastHop(topo, st, r, f, hops);
      events, st', g := [], st, f;
    } else {
      var st1, f1 := NextTakes(topo, st, r, f, hops);
      var tail, rest := hops[1..], [];
      assert SimpleWalk(topo, f1.net, tail, f1.npdu.dnet) && tail[|tail| - 1] == hops[|hops| - 1];
      rest, st', g := ArrivesAnyway(topo, st1, tail[0].router, f1, tail);
      events := [Receive(r, f)] + rest;
      OneReceptionMore(topo, st, r, f, hops, rest, st1, st');
    }
  }
}
