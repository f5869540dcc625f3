/** Which next router the tables name. On a tree the next router is the right one, if and only if no
    router relays a message back onto the network it came from. */
module NextHops {
  import opened Octets
  import opened NpduCodec
  import opened RoutingTable
  import opened Routing
  import opened Topology
  import opened Internetwork
  import opened Convergence

  /** Some router other than `r` has address `mac` on network `n` and leads from there to `net`. */
  ghost predicate LeadsOn(topo: Topology, r: int, n: Net, mac: Mac, net: Net) {
    exists s: nat :: s < |topo| && s != r && n in topo[s] && topo[s][n] == mac && !SameSide(topo, s, n, net)
  }

  /** If router `r` sends to a next router, that router leads to the network. */
  ghost predicate NextHopRight(topo: Topology, r: nat, t: Table, net: Net)
    requires Known(t, net)
  {
    var via := Resolve(t, net);
    via.hop.Through? ==> LeadsOn(topo, r, via.port, via.hop.mac, net)
  }

  /** The sender of a frame leads to whatever the frame claims. */
  ghost predicate FrameRight(topo: Topology, f: Frame) {
    forall net :: net in Claims(f.npdu) ==> LeadsOn(topo, -1, f.net, f.sender, net)
  }

  ghost predicate Right(topo: Topology, st: State) {
    && Inv(topo, st)
    && (forall r, net {:trigger NextHopRight(topo, r, st.tables[r], net)} ::
          0 <= r < |topo| && Known(st.tables[r], net) ==> NextHopRight(topo, r, st.tables[r], net))
    && (forall f {:trigger FrameRight(topo, f)} :: f in st.wire ==> FrameRight(topo, f))
  }

  /** A relayed copy carries a source: the one it came with, or else the network and station it was heard from. */
  predicate NamesSource(snet: Net, mac: Mac, m: Npdu) {
    if m.snet != 0 then m.sadr != [] else snet != 0 && mac != []
  }

  /** A router passes a message, its source named, back onto the network it came from. The router does not
      look whether it does: a station that sends to the right router makes sure it does not. */
  predicate RelaysBack(t: Table, snet: Net, mac: Mac, m: Npdu) {
    && m.content.Apdu? && m.dnet != BROADCAST && (m.dnet == 0 || m.hop > 1)
    && Known(t, m.dnet) && Resolve(t, m.dnet).port == snet && NamesSource(snet, mac, m)
  }

  predicate Straight(topo: Topology, st: State, e: Event)
    requires Enabled(topo, st, e)
  {
    e.Receive? ==> !RelaysBack(st.tables[e.router], e.frame.net, e.frame.sender, e.frame.npdu)
  }

  // ----- a little geometry -----

  /** On a tree, what lies beyond router `s` as seen from a network of both `s` and `r` lies on
      that network's side of `r`. */
  lemma BeyondIsBehind(topo: Topology, s: nat, r: nat, n: Net, p: Net, net: Net)
    requires Acyclic(topo) && s < |topo| && r < |topo| && s != r
    requires n in topo[s] && n in topo[r] && p in topo[r]
    requires !SameSide(topo, s, n, net) && SameSide(topo, r, p, net)
    ensures p == n
  {
    var hops: seq<Hop> :| Walk(topo, r, p, hops, net);
    if s in RoutersOf(hops) {
      var e := Visits(topo, r, p, hops, net, s);
      Adjacent(topo, r, s, e, n);
      SameSideTrans(topo, r, p, e, n);
    } else {
      Avoids(topo, r, p, hops, net, s);
      assert SameSide(topo, s, p, net);
      Adjacent(topo, s, r, n, p);
      SameSideTrans(topo, s, n, p, net);
    }
  }

  // ----- every claim a router makes leads on -----

  /** Whatever router `r` claims on `q` lies beyond it. */
  ghost predicate ClaimsLeadOn(topo: Topology, r: nat, sends: seq<Send>) {
    forall s, net :: s in sends && net in Claims(s.npdu) ==> !SameSide(topo, r, s.net, net)
  }

  lemma SendsRight(topo: Topology, r: nat, sends: seq<Send>)
    requires r < |topo| && ClaimsLeadOn(topo, r, sends)
    ensures forall f :: f in FramesOf(topo[r], sends) ==> FrameRight(topo, f)
  {
  }

  /** A network routed through another port than `snet` lies beyond the router, as seen from `snet`. */
  lemma OtherPortLeadsOn(topo: Topology, st: State, r: nat, snet: Net, net: Net)
    requires Inv(topo, st) && Acyclic(topo) && r < |topo| && snet in topo[r]
    requires Known(st.tables[r], net) && Resolve(st.tables[r], net).port != snet
    ensures !SameSide(topo, r, snet, net)
  {
    assert RouteSound(topo, r, st.tables[r], net);
    SoundRouteIsExact(topo, r, st.tables[r], net, snet);
  }

  /** Copies of one NPDU, each on a network from which all it claims lies beyond the router. */
  lemma CopiesLeadOn(topo: Topology, r: nat, nets: seq<Net>, mac: Mac, m: Npdu)
    requires forall n, net :: n in nets && net in Claims(m) ==> !SameSide(topo, r, n, net)
    ensures ClaimsLeadOn(topo, r, SendAll(nets, mac, m))
  {
  }

  lemma IAmLeadsOn(topo: Topology, st: State, r: nat, snet: Net, net: Net)
    requires Inv(topo, st) && Acyclic(topo) && r < |topo| && snet in topo[r]
    requires net == 0 || (Known(st.tables[r], net) && Resolve(st.tables[r], net).port != snet)
    ensures ClaimsLeadOn(topo, r, IAmRouter(st.tables[r], snet, net))
  {
    var t := st.tables[r];
    var nets := if net != 0 then [net] else Announcement(t, snet);
    if net != 0 {
      NetRoundTrip(net, []);
      assert EncodeNet(net) + [] == EncodeNet(net);
      assert EncodeNets([net]) == EncodeNet(net);
    }
    NetsRoundTrip(nets);
    ControlClaims(I_AM_ROUTER, EncodeNets(nets));
    forall n | n in nets ensures !SameSide(topo, r, snet, n) {
      SplitHorizon(t, snet);
      OtherPortLeadsOn(topo, st, r, snet, n);
    }
    CopiesLeadOn(topo, r, [snet], [], ControlMessage(I_AM_ROUTER, EncodeNets(nets)));
    assert SendAll([snet], [], ControlMessage(I_AM_ROUTER, EncodeNets(nets)))
        == [Send(snet, [], ControlMessage(I_AM_ROUTER, EncodeNets(nets)))];
    assert snet in PortNets(t) && 0 !in topo[r];
  }

  lemma {:induction false} WhoIsClaimsNothing(topo: Topology, r: nat, t: Table, nets: seq<Net>, dnet: Net)
    ensures ClaimsLeadOn(topo, r, WhoIsOnEach(t, nets, dnet)) && ClaimsLeadOn(topo, r, WhoIsRouter(t, 0, dnet))
  {
    ControlClaims(WHO_IS_ROUTER, if dnet != 0 then EncodeNet(dnet) else []);
    if nets != [] { WhoIsClaimsNothing(topo, r, t, nets[1..], dnet); }
  }

  lemma ControlLeadsOn(topo: Topology, st: State, r: nat, snet: Net, mac: Mac, m: Npdu)
    requires Inv(topo, st) && Acyclic(topo) && r < |topo| && snet in topo[r] && m.content.Control?
    ensures ClaimsLeadOn(topo, r, HandleControl(st.tables[r], snet, mac, m).sends)
  {
    var t, payload := st.tables[r], m.content.payload;
    if m.content.kind == WHO_IS_ROUTER {
      if |payload| < 2 {
        IAmLeadsOn(topo, st, r, snet, 0);
      } else {
        var net := DecodeNet(payload);
        if Known(t, net) && Resolve(t, net).port != snet { IAmLeadsOn(topo, st, r, snet, net); }
        WhoIsClaimsNothing(topo, r, t, Others(PortNets(t), snet), net);
      }
    }
  }

  /** The source named in a relayed message lies beyond the relay, as seen from any other port. */
  lemma SourceLeadsOn(topo: Topology, st: State, r: nat, f: Frame, q: Net)
    requires Right(topo, st) && Acyclic(topo) && r < |topo| && f in st.wire
    requires f.net in topo[r] && f.sender != topo[r][f.net] && f.npdu.content.Apdu?
    requires q in topo[r] && q != f.net
    ensures !SameSide(topo, r, q, if f.npdu.snet != 0 then f.npdu.snet else f.net)
  {
    var net := f.npdu.snet;
    if net != 0 {
      assert FrameRight(topo, f) && net in Claims(f.npdu);
      var s: nat :| s < |topo| && f.net in topo[s] && topo[s][f.net] == f.sender && !SameSide(topo, s, f.net, net);
      if SameSide(topo, r, q, net) {
        BeyondIsBehind(topo, s, r, f.net, q, net);
      }
    }
  }

  /** What the copies of a relayed message claim lies beyond the relay, as seen from the other ports. */
  lemma SourceBeyond(topo: Topology, st: State, r: nat, f: Frame, dnet: Net, dadr: Mac)
    requires Right(topo, st) && Acyclic(topo) && r < |topo| && f in st.wire
    requires f.net in topo[r] && f.sender != topo[r][f.net] && f.npdu.content.Apdu?
    ensures var claims := Claims(Relayed(f.net, f.sender, f.npdu, dnet, dadr));
            forall q, net :: q in topo[r] && q != f.net && net in claims ==> !SameSide(topo, r, q, net)
  {
    RelayedClaims(f.net, f.sender, f.npdu, dnet, dadr);
    forall q | q in topo[r] && q != f.net
      ensures !SameSide(topo, r, q, if f.npdu.snet != 0 then f.npdu.snet else f.net)
    {
      SourceLeadsOn(topo, st, r, f, q);
    }
  }

  lemma FloodLeadsOn(topo: Topology, st: State, r: nat, f: Frame)
    requires Right(topo, st) && Acyclic(topo) && r < |topo| && f in st.wire
    requires f.net in topo[r] && f.sender != topo[r][f.net] && f.npdu.content.Apdu?
    requires f.npdu.dnet == BROADCAST || !Known(st.tables[r], f.npdu.dnet)
    ensures ClaimsLeadOn(topo, r, RouteApdu(st.tables[r], f.net, f.sender, f.npdu).sends)
  {
    var t, m := st.tables[r], f.npdu;
    var others := Others(PortNets(t), f.net);
    var dadr := if m.dnet == BROADCAST then [] else m.dadr;
    SourceBeyond(topo, st, r, f, m.dnet, dadr);
    CopiesLeadOn(topo, r, others, [], Relayed(f.net, f.sender, m, m.dnet, dadr));
    WhoIsClaimsNothing(topo, r, t, [], m.dnet);
  }

  lemma KnownLeadsOn(topo: Topology, st: State, r: nat, f: Frame)
    requires Right(topo, st) && Acyclic(topo) && r < |topo| && f in st.wire
    requires f.net in topo[r] && f.sender != topo[r][f.net] && f.npdu.content.Apdu?
    requires f.npdu.dnet != BROADCAST && Known(st.tables[r], f.npdu.dnet)
    requires Resolve(st.tables[r], f.npdu.dnet).port != f.net || !NamesSource(f.net, f.sender, f.npdu)
    ensures ClaimsLeadOn(topo, r, RouteApdu(st.tables[r], f.net, f.sender, f.npdu).sends)
  {
    var t, m := st.tables[r], f.npdu;
    SourceBeyond(topo, st, r, f, 0, []);
    SourceBeyond(topo, st, r, f, m.dnet, m.dadr);
    assert RouteSound(topo, r, t, m.dnet);
  }

  lemma HandleLeadsOn(topo: Topology, st: State, r: nat, f: Frame)
    requires Right(topo, st) && Acyclic(topo) && r < |topo| && f in st.wire
    requires f.net in topo[r] && f.sender != topo[r][f.net] && !RelaysBack(st.tables[r], f.net, f.sender, f.npdu)
    ensures ClaimsLeadOn(topo, r, Handle(st.tables[r], f.net, f.sender, f.npdu).sends)
  {
    if Handle(st.tables[r], f.net, f.sender, f.npdu).sends == [] {
    } else if f.npdu.content.Control? {
      ControlLeadsOn(topo, st, r, f.net, f.sender, f.npdu);
    } else if f.npdu.dnet == BROADCAST || !Known(st.tables[r], f.npdu.dnet) {
      FloodLeadsOn(topo, st, r, f);
    } else {
      KnownLeadsOn(topo, st, r, f);
    }
  }

  lemma LearningKeepsRight(topo: Topology, st: State, r: nat, f: Frame, u: Table, tables': seq<Table>)
    requires Right(topo, st) && r < |topo| && f in st.wire && f.net in topo[r] && f.sender != topo[r][f.net]
    requires Grows(st.tables[r], u, f.net, f.sender, Claims(f.npdu)) && tables' == st.tables[r := u]
    ensures forall x, net :: 0 <= x < |topo| && Known(tables'[x], net) ==> NextHopRight(topo, x, tables'[x], net)
  {
    forall x, net | 0 <= x < |topo| && Known(tables'[x], net)
      ensures NextHopRight(topo, x, tables'[x], net)
    {
      if Known(st.tables[x], net) {
        assert NextHopRight(topo, x, st.tables[x], net);
      } else {
        assert x == r && net in Claims(f.npdu) && FrameRight(topo, f);
        assert LeadsOn(topo, -1, f.net, f.sender, net);
      }
    }
  }

  lemma StepKeepsRight(topo: Topology, st: State, e: Event)
    requires Right(topo, st) && Acyclic(topo) && Enabled(topo, st, e) && Straight(topo, st, e)
    ensures Right(topo, After(topo, st, e))
  {
    StepKeepsInv(topo, st, e);
    match e
    case Inject(f) =>
    case Announce(r, net) =>
      IAmLeadsOn(topo, st, r, net, 0);
      SendsRight(topo, r, IAmRouter(st.tables[r], net, 0));
    case Receive(r, f) =>
      HandleGrows(st.tables[r], f.net, f.sender, f.npdu);
      LearningKeepsRight(topo, st, r, f, Handle(st.tables[r], f.net, f.sender, f.npdu).table,
                         After(topo, st, e).tables);
      HandleLeadsOn(topo, st, r, f);
      SendsRight(topo, r, Handle(st.tables[r], f.net, f.sender, f.npdu).sends);
  }

  // ----- exactly when -----

  /** The source of a message lies on the side of the router it came from. */
  lemma SourceIsBehind(topo: Topology, st: State, r: nat, f: Frame)
    requires Right(topo, st) && Acyclic(topo) && r < |topo| && f in st.wire
    requires f.net in topo[r] && f.sender != topo[r][f.net] && f.npdu.content.Apdu?
    ensures SameSide(topo, r, f.net, if f.npdu.snet != 0 then f.npdu.snet else f.net)
  {
    var net := f.npdu.snet;
    if net == 0 {
      SameSideRefl(topo, r, f.net);
    } else {
      assert FrameRight(topo, f) && FrameOk(topo, st.tables, f) && net in Claims(f.npdu);
      var s: nat :| s < |topo| && f.net in topo[s] && topo[s][f.net] == f.sender && !SameSide(topo, s, f.net, net);
      if Known(st.tables[r], net) {
        assert RouteSound(topo, r, st.tables[r], net);
        BeyondIsBehind(topo, s, r, f.net, Resolve(st.tables[r], net).port, net);
      }
    }
  }

  /** The copy relayed back names a source it does not lead to. */
  lemma BackIsWrong(topo: Topology, st: State, r: nat, f: Frame)
    requires Right(topo, st) && Acyclic(topo) && DistinctAddresses(topo) && Enabled(topo, st, Receive(r, f))
    requires RelaysBack(st.tables[r], f.net, f.sender, f.npdu)
    ensures !Right(topo, After(topo, st, Receive(r, f)))
  {
    var t, m := st.tables[r], f.npdu;
    var sends := Handle(t, f.net, f.sender, m).sends;
    var source := if m.snet != 0 then m.snet else f.net;
    assert |sends| == 1 && sends[0].net == f.net && source in Claims(sends[0].npdu);
    var back := Frame(f.net, topo[r][f.net], sends[0].npdu);
    assert sends[0] in sends && back in FramesOf(topo[r], sends);
    SourceIsBehind(topo, st, r, f);
    assert !FrameRight(topo, back);
  }

  /** A reception keeps every claim and every next router right if and only if nothing is relayed back, its
      source named, where it came from. */
  lemma ReceptionIsRight(topo: Topology, st: State, r: nat, f: Frame)
    requires Right(topo, st) && Acyclic(topo) && DistinctAddresses(topo) && Enabled(topo, st, Receive(r, f))
    ensures Right(topo, After(topo, st, Receive(r, f))) <==> !RelaysBack(st.tables[r], f.net, f.sender, f.npdu)
  {
    if RelaysBack(st.tables[r], f.net, f.sender, f.npdu) {
      BackIsWrong(topo, st, r, f);
    } else {
      StepKeepsRight(topo, st, Receive(r, f));
    }
  }

  // ----- runs -----

  /** A run in which no router relays a message back where it came from. */
  ghost predicate StraightRun(topo: Topology, st: State, events: seq<Event>, st': State)
    decreases |events|
  {
    if events == [] then st == st'
    else && Enabled(topo, st, events[0]) && Straight(topo, st, events[0])
         && StraightRun(topo, After(topo, st, events[0]), events[1..], st')
  }

  /** Over every such run, a table's next router is on the port's network and leads on to the destination. */
  lemma {:induction false} NextHopsAreRight(topo: Topology, st: State, events: seq<Event>, st': State)
    requires Acyclic(topo) && (Start(topo, st) || Right(topo, st)) && StraightRun(topo, st, events, st')
    ensures Right(topo, st')
    decreases |events|
  {
    if Start(topo, st) { StartRight(topo, st); }
    if events != [] {
      StepKeepsRight(topo, st, events[0]);
      NextHopsAreRight(topo, After(topo, st, events[0]), events[1..], st');
    }
  }

  /** Every state of the run is right. */
  ghost predicate AlwaysRight(topo: Topology, st: State, events: seq<Event>)
    decreases |events|
  {
    Right(topo, st)
    && (events != [] ==> Enabled(topo, st, events[0]) && AlwaysRight(topo, After(topo, st, events[0]), events[1..]))
  }

  /** Exactly those runs stay right throughout. */
  lemma {:induction false} RunStaysRight(topo: Topology, st: State, events: seq<Event>, st': State)
    requires Acyclic(topo) && DistinctAddresses(topo) && (Start(topo, st) || Right(topo, st))
    requires Reaches(topo, st, events, st')
    ensures AlwaysRight(topo, st, events) <==> StraightRun(topo, st, events, st')
    decreases |events|
  {
    if Start(topo, st) { StartRight(topo, st); }
    if events != [] {
      var u := After(topo, st, events[0]);
      if Straight(topo, st, events[0]) {
        StepKeepsRight(topo, st, events[0]);
        RunStaysRight(topo, u, events[1..], st');
      } else {
        ReceptionIsRight(topo, st, events[0].router, events[0].frame);
      }
    }
  }

  lemma StartRight(topo: Topology, st: State)
    requires Start(topo, st)
    ensures Right(topo, st)
  {
    StartInv(topo, st);
    forall r, net | 0 <= r < |topo| && Known(st.tables[r], net)
      ensures NextHopRight(topo, r, st.tables[r], net)
    {
      var t := st.tables[r];
      assert t[Find(t, net)].Nets() == [t[Find(t, net)].net];
    }
  }
}
