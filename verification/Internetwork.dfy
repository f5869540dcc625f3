/** Many routers exchanging messages, and what every run of them keeps. */
module Internetwork {
  import opened Octets
  import opened NpduCodec
  import opened RoutingTable
  import opened Routing
  import opened Topology

  /** An NPDU on the medium of network `net`, from the station `sender`. */
  datatype Frame = Frame(net: Net, sender: Mac, npdu: Npdu)

  /** The routers' tables and every frame sent so far: a frame stays available, so it may be
      received late, out of order, more than once or never, by any router of its network. */
  datatype State = State(tables: seq<Table>, wire: set<Frame>)

  /** The networks a router that receives `m` is told about. */
  function Claims(m: Npdu): set<Net> {
    match m.content
    case Apdu(_) => if m.snet != 0 then {m.snet} else {}
    case Control(kind, _, payload) =>
      if kind == I_AM_ROUTER then set net | net in DecodeNets(payload)
      else if kind == INIT_RT_TABLE && |payload| >= 3 && payload[0] != 0 then {DecodeNet(payload[1..])}
      else {}
  }

  ghost predicate Attached(topo: Topology, t: Table, r: nat) {
    && r < |topo|
    && Distinct(t)
    && 0 !in topo[r]
    && (forall n :: n in PortNets(t) <==> n in topo[r])
  }

  /** Each router has been given its ports and nothing has been sent. */
  ghost predicate Start(topo: Topology, st: State) {
    && |st.tables| == |topo| && st.wire == {}
    && forall r :: 0 <= r < |topo| ==>
                     && Attached(topo, st.tables[r], r)
                     && forall i :: 0 <= i < |st.tables[r]| ==> st.tables[r][i].dnets == []
  }

  /** The frames of router `r`'s sends, stamped with its own address on each network. */
  function FramesOf(ports: map<Net, Mac>, sends: seq<Send>): set<Frame> {
    set s | s in sends && s.net in ports :: Frame(s.net, ports[s.net], s.npdu)
  }

  datatype Event =
    | Inject(frame: Frame)                 // a device that is not a router sends something
    | Announce(router: nat, net: Net)      // a router starts up, or is asked, and lists what it reaches
    | Receive(router: nat, frame: Frame)   // a router takes a frame off one of its networks

  predicate Enabled(topo: Topology, st: State, e: Event) {
    match e
    case Inject(f) => Claims(f.npdu) == {}
    case Announce(r, net) => r < |st.tables| && r < |topo| && net in topo[r]
    case Receive(r, f) =>
      r < |st.tables| && r < |topo| && f in st.wire && f.net in topo[r] && f.sender != topo[r][f.net]
  }

  function After(topo: Topology, st: State, e: Event): State
    requires Enabled(topo, st, e)
  {
    match e
    case Inject(f) => st.(wire := st.wire + {f})
    case Announce(r, net) => st.(wire := st.wire + FramesOf(topo[r], IAmRouter(st.tables[r], net, 0)))
    case Receive(r, f) =>
      var out := Handle(st.tables[r], f.net, f.sender, f.npdu);
      State(st.tables[r := out.table], st.wire + FramesOf(topo[r], out.sends))
  }

  /** `st'` is reached from `st` by some finite sequence of events. */
  ghost predicate Reaches(topo: Topology, st: State, events: seq<Event>, st': State)
    decreases |events|
  {
    if events == [] then st == st'
    else Enabled(topo, st, events[0]) && Reaches(topo, After(topo, st, events[0]), events[1..], st')
  }

  // ----- the invariant -----

  /** Whoever hears on network `n` that `net` lies there is told the truth: every router
      either knows `net` already or has it on the same side as `n`. */
  ghost predicate Settled(topo: Topology, tables: seq<Table>, n: Net, net: Net)
    requires |tables| == |topo|
  {
    forall x :: 0 <= x < |topo| ==> Known(tables[x], net) || SameSide(topo, x, n, net)
  }

  /** An entry of router `r` leads, through the port it names, to the network it names. */
  ghost predicate RouteSound(topo: Topology, r: nat, t: Table, net: Net)
    requires r < |topo| && Known(t, net)
  {
    var via := Resolve(t, net);
    && via.port in topo[r]
    && SameSide(topo, r, via.port, net)
    && (via.hop.Through? ==> exists s ::
         0 <= s < |topo| && s != r && via.port in topo[s] && topo[s][via.port] == via.hop.mac)
  }

  ghost predicate Inv(topo: Topology, st: State) {
    && |st.tables| == |topo|
    && (forall r :: 0 <= r < |topo| ==> Attached(topo, st.tables[r], r))
    && (forall r, net {:trigger RouteSound(topo, r, st.tables[r], net)} ::
          0 <= r < |topo| && Known(st.tables[r], net) ==>
                           && RouteSound(topo, r, st.tables[r], net)
                           && Settled(topo, st.tables, Resolve(st.tables[r], net).port, net))
    && (forall f {:trigger FrameOk(topo, st.tables, f)} :: f in st.wire ==> FrameOk(topo, st.tables, f))
  }

  /** All a frame claims is settled, and a frame that claims something comes from a router. */
  ghost predicate FrameOk(topo: Topology, tables: seq<Table>, f: Frame)
    requires |tables| == |topo|
  {
    forall net :: net in Claims(f.npdu) ==>
                    && Settled(topo, tables, f.net, net)
                    && exists s :: 0 <= s < |topo| && f.net in topo[s] && topo[s][f.net] == f.sender
  }

  // ----- what one reception teaches one router -----

  lemma PortResolves(t: Table, net: Net)
    requires Distinct(t) && net in PortNets(t)
    ensures Known(t, net) && Resolve(t, net) == Via(net, Direct)
  {
    var i :| 0 <= i < |t| && t[i].net == net;
    assert t[i].Nets()[0] == net;
    assert forall j :: 0 <= j < i ==> Disjoint(t[j].Nets(), t[i].Nets());
    FindIs(t, net, i);
  }

  /** `u` is `t` with some of `claims` added under port `snet` and next router `mac`. */
  ghost predicate Grows(t: Table, u: Table, snet: Net, mac: Mac, claims: set<Net>) {
    && Distinct(u) && PortNets(u) == PortNets(t)
    && (forall net: Net :: Known(t, net) ==> Known(u, net) && Resolve(u, net) == Resolve(t, net))
    && (forall net: Net :: Known(u, net) && !Known(t, net) ==>
                             net in claims && Resolve(u, net) == Via(snet, NextHop.Through(mac)))
  }

  lemma DnetAddGrows(t: Table, snet: Net, net: Net, mac: Mac, claims: set<Net>)
    requires Distinct(t) && snet in PortNets(t) && net in claims
    ensures Grows(t, DnetAdd(t, snet, net, mac), snet, mac, claims)
    ensures Known(DnetAdd(t, snet, net, mac), net)
  {
    PortResolves(t, snet);
    ApplyKeepsDistinct(t, AddRoute(snet, net, mac));
    DnetAddKeepsPorts(t, snet, net, mac);
    if !Known(t, net) {
      forall n: Net
        ensures Known(t, n) ==>
                Known(DnetAdd(t, snet, net, mac), n) && Resolve(DnetAdd(t, snet, net, mac), n) == Resolve(t, n)
        ensures Known(DnetAdd(t, snet, net, mac), n) && !Known(t, n) ==>
                  n == net && Resolve(DnetAdd(t, snet, net, mac), n) == Via(snet, NextHop.Through(mac))
      {
        DnetAddFind(t, snet, net, mac, n);
      }
      DnetAddFind(t, snet, net, mac, net);
    }
  }

  lemma GrowsTrans(t: Table, u: Table, v: Table, snet: Net, mac: Mac, claims: set<Net>)
    requires Grows(t, u, snet, mac, claims) && Grows(u, v, snet, mac, claims)
    ensures Grows(t, v, snet, mac, claims)
    ensures forall net: Net :: Known(u, net) ==> Known(v, net)
  {
  }

  lemma {:induction false} LearnAllGrows(t: Table, snet: Net, nets: seq<Net>, mac: Mac, claims: set<Net>)
    requires Distinct(t) && snet in PortNets(t)
    requires forall net :: net in nets ==> net in claims
    ensures Grows(t, LearnAll(t, snet, nets, mac), snet, mac, claims)
    decreases |nets|
  {
    if nets != [] {
      var u := DnetAdd(t, snet, nets[0], mac);
      DnetAddGrows(t, snet, nets[0], mac, claims);
      assert snet in PortNets(u);
      LearnAllGrows(u, snet, nets[1..], mac, claims);
      GrowsTrans(t, u, LearnAll(t, snet, nets, mac), snet, mac, claims);
    }
  }

  lemma GrowsRefl(t: Table, snet: Net, mac: Mac, claims: set<Net>)
    requires Distinct(t)
    ensures Grows(t, t, snet, mac, claims)
  {
  }

  lemma ControlGrows(t: Table, snet: Net, mac: Mac, m: Npdu)
    requires Distinct(t) && snet in PortNets(t) && m.content.Control?
    ensures Grows(t, HandleControl(t, snet, mac, m).table, snet, mac, Claims(m))
  {
    var kind, payload := m.content.kind, m.content.payload;
    if kind == I_AM_ROUTER {
      LearnAllGrows(t, snet, DecodeNets(payload), mac, Claims(m));
    } else if kind == INIT_RT_TABLE && |payload| >= 3 && payload[0] != 0 {
      DnetAddGrows(t, snet, DecodeNet(payload[1..]), mac, Claims(m));
    } else {
      GrowsRefl(t, snet, mac, Claims(m));
    }
  }

  /** A reception only adds entries, and only for networks the message claims. */
  lemma HandleGrows(t: Table, snet: Net, mac: Mac, m: Npdu)
    requires Distinct(t) && snet in PortNets(t)
    ensures Grows(t, Handle(t, snet, mac, m).table, snet, mac, Claims(m))
  {
    GrowsRefl(t, snet, mac, Claims(m));
    if m.content.Control? {
      ControlGrows(t, snet, mac, m);
    } else {
      ApduTable(t, snet, mac, m);
      if m.snet != 0 {
        assert m.snet in Claims(m);
        DnetAddGrows(t, snet, m.snet, mac, Claims(m));
      }
    }
  }

  /** A router speaks only of networks in its own table, and only on its own ports. */
  ghost predicate Honest(t: Table, sends: seq<Send>) {
    forall s :: s in sends ==> s.net in PortNets(t) && forall net :: net in Claims(s.npdu) ==> Known(t, net)
  }

  lemma ControlClaims(kind: Octet, payload: seq<Octet>)
    ensures kind == I_AM_ROUTER ==> Claims(ControlMessage(kind, payload)) == set net | net in DecodeNets(payload)
    ensures kind != I_AM_ROUTER && kind != INIT_RT_TABLE ==> Claims(ControlMessage(kind, payload)) == {}
  {
  }

  lemma IAmHonest(t: Table, snet: Net, net: Net)
    requires Distinct(t) && (net == 0 || Known(t, net)) && 0 !in PortNets(t)
    ensures Honest(t, IAmRouter(t, snet, net))
  {
    if net != 0 {
      NetRoundTrip(net, []);
      assert EncodeNet(net) + [] == EncodeNet(net);
      assert DecodeNets(EncodeNet(net)) == [net];
    } else {
      NetsRoundTrip(Announcement(t, snet));
      SplitHorizon(t, snet);
    }
    var payload := if net != 0 then EncodeNet(net) else EncodeNets(Announcement(t, snet));
    ControlClaims(I_AM_ROUTER, payload);
  }

  lemma {:induction false} WhoIsHonest(t: Table, nets: seq<Net>, dnet: Net)
    requires 0 !in PortNets(t)
    ensures Honest(t, WhoIsOnEach(t, nets, dnet)) && Honest(t, WhoIsRouter(t, 0, dnet))
  {
    ControlClaims(WHO_IS_ROUTER, if dnet != 0 then EncodeNet(dnet) else []);
    if nets != [] { WhoIsHonest(t, nets[1..], dnet); }
  }

  lemma ControlHonest(t: Table, snet: Net, mac: Mac, m: Npdu)
    requires Distinct(t) && snet in PortNets(t) && 0 !in PortNets(t) && m.content.Control?
    ensures Honest(HandleControl(t, snet, mac, m).table, HandleControl(t, snet, mac, m).sends)
  {
    var payload := m.content.payload;
    ControlGrows(t, snet, mac, m);
    if m.content.kind == WHO_IS_ROUTER {
      IAmHonest(t, snet, 0);
      if |payload| >= 2 {
        var net := DecodeNet(payload);
        if Known(t, net) { IAmHonest(t, snet, net); }
        WhoIsHonest(t, Others(PortNets(t), snet), net);
      }
    }
  }

  lemma RelayedClaims(snet: Net, mac: Mac, m: Npdu, dnet: Net, dadr: Mac)
    requires m.content.Apdu?
    ensures Claims(Relayed(snet, mac, m, dnet, dadr)) <= {if m.snet != 0 then m.snet else snet}
  {
  }

  lemma LearnSourceGrows(t: Table, snet: Net, mac: Mac, m: Npdu)
    requires Distinct(t) && snet in PortNets(t)
    ensures PortNets(LearnSource(t, snet, mac, m)) == PortNets(t)
    ensures Known(LearnSource(t, snet, mac, m), if m.snet != 0 then m.snet else snet)
  {
    PortResolves(t, snet);
    if m.snet != 0 {
      DnetAddGrows(t, snet, m.snet, mac, {m.snet});
    }
  }

  /** Copies of one NPDU that makes no false claim, sent on the router's own ports. */
  lemma CopiesHonest(t: Table, nets: seq<Net>, mac: Mac, m: Npdu)
    requires forall n :: n in nets ==> n in PortNets(t)
    requires forall net :: net in Claims(m) ==> Known(t, net)
    ensures Honest(t, SendAll(nets, mac, m))
  {
  }

  lemma BroadcastHonest(t: Table, snet: Net, mac: Mac, m: Npdu)
    requires Distinct(t) && snet in PortNets(t) && 0 !in PortNets(t) && m.content.Apdu? && m.dnet == BROADCAST
    ensures Honest(RouteApdu(t, snet, mac, m).table, RouteApdu(t, snet, mac, m).sends)
  {
    LearnSourceGrows(t, snet, mac, m);
    RelayedClaims(snet, mac, m, BROADCAST, []);
    CopiesHonest(LearnSource(t, snet, mac, m), Others(PortNets(t), snet), [], Relayed(snet, mac, m, BROADCAST, []));
  }

  lemma DirectedHonest(t: Table, snet: Net, mac: Mac, m: Npdu)
    requires Distinct(t) && snet in PortNets(t) && 0 !in PortNets(t) && m.content.Apdu? && m.dnet != BROADCAST
    requires Known(t, m.dnet)
    ensures Honest(RouteApdu(t, snet, mac, m).table, RouteApdu(t, snet, mac, m).sends)
  {
    LearnSourceGrows(t, snet, mac, m);
    RelayedClaims(snet, mac, m, 0, []);
    RelayedClaims(snet, mac, m, m.dnet, m.dadr);
    assert PortNets(t)[Find(t, m.dnet)] == Resolve(t, m.dnet).port;
  }

  lemma FloodHonest(t: Table, snet: Net, mac: Mac, m: Npdu)
    requires Distinct(t) && snet in PortNets(t) && 0 !in PortNets(t) && m.content.Apdu? && m.dnet != BROADCAST
    requires !Known(t, m.dnet) && m.dnet != 0
    ensures Honest(RouteApdu(t, snet, mac, m).table, RouteApdu(t, snet, mac, m).sends)
  {
    var u := LearnSource(t, snet, mac, m);
    LearnSourceGrows(t, snet, mac, m);
    RelayedClaims(snet, mac, m, m.dnet, m.dadr);
    CopiesHonest(u, Others(PortNets(t), snet), [], Relayed(snet, mac, m, m.dnet, m.dadr));
    assert WhoIsRouter(u, 0, m.dnet) == WhoIsRouter(t, 0, m.dnet);
    WhoIsHonest(u, [], m.dnet);
  }

  lemma RelayHonest(t: Table, snet: Net, mac: Mac, m: Npdu)
    requires Distinct(t) && snet in PortNets(t) && 0 !in PortNets(t) && m.content.Apdu?
    ensures Honest(RouteApdu(t, snet, mac, m).table, RouteApdu(t, snet, mac, m).sends)
  {
    if m.dnet == BROADCAST {
      BroadcastHonest(t, snet, mac, m);
    } else if Known(t, m.dnet) {
      DirectedHonest(t, snet, mac, m);
    } else if m.dnet != 0 {
      FloodHonest(t, snet, mac, m);
    }
  }

  lemma HandleHonest(t: Table, snet: Net, mac: Mac, m: Npdu)
    requires Distinct(t) && snet in PortNets(t) && 0 !in PortNets(t)
    ensures Honest(Handle(t, snet, mac, m).table, Handle(t, snet, mac, m).sends)
  {
    if Handle(t, snet, mac, m).sends == [] {
    } else if m.content.Control? {
      ControlHonest(t, snet, mac, m);
    } else {
      RelayHonest(t, snet, mac, m);
    }
  }

  // ----- the invariant is kept -----

  /** What a router knows it may say on any of its ports. */
  lemma SettledSpreads(topo: Topology, tables: seq<Table>, r: nat, p: Net, q: Net, net: Net)
    requires |tables| == |topo| && r < |topo| && p in topo[r] && q in topo[r]
    requires Settled(topo, tables, p, net) && Known(tables[r], net)
    ensures Settled(topo, tables, q, net)
  {
    forall x | 0 <= x < |topo|
      ensures Known(tables[x], net) || SameSide(topo, x, q, net)
    {
      if !Known(tables[x], net) {
        Adjacent(topo, x, r, q, p);
        SameSideTrans(topo, x, q, p, net);
      }
    }
  }

  lemma SettledKept(topo: Topology, tables: seq<Table>, tables': seq<Table>, n: Net, net: Net)
    requires |tables| == |topo| == |tables'|
    requires forall x :: 0 <= x < |topo| && Known(tables[x], net) ==> Known(tables'[x], net)
    requires Settled(topo, tables, n, net)
    ensures Settled(topo, tables', n, net)
  {
  }

  lemma DirectSettled(topo: Topology, tables: seq<Table>, n: Net)
    requires |tables| == |topo|
    ensures Settled(topo, tables, n, n)
  {
    forall x | 0 <= x < |topo| ensures SameSide(topo, x, n, n) { SameSideRefl(topo, x, n); }
  }

  /** Frames an honest router sends are as sound as its table. */
  lemma SendsOk(topo: Topology, st: State, r: nat, sends: seq<Send>)
    requires Inv(topo, st) && r < |topo| && Honest(st.tables[r], sends)
    ensures forall f :: f in FramesOf(topo[r], sends) ==> FrameOk(topo, st.tables, f)
  {
    forall s, net | s in sends && s.net in topo[r] && net in Claims(s.npdu)
      ensures Settled(topo, st.tables, s.net, net)
    {
      assert RouteSound(topo, r, st.tables[r], net);
      SettledSpreads(topo, st.tables, r, Resolve(st.tables[r], net).port, s.net, net);
    }
  }

  lemma StartInv(topo: Topology, st: State)
    requires Start(topo, st)
    ensures Inv(topo, st)
  {
    forall r, net | 0 <= r < |topo| && Known(st.tables[r], net)
      ensures RouteSound(topo, r, st.tables[r], net) && Settled(topo, st.tables, Resolve(st.tables[r], net).port, net)
    {
      var t := st.tables[r];
      assert t[Find(t, net)].Nets() == [t[Find(t, net)].net];
      assert PortNets(t)[Find(t, net)] == net;
      SameSideRefl(topo, r, net);
      DirectSettled(topo, st.tables, net);
    }
  }

  lemma WireGrows(topo: Topology, st: State, more: set<Frame>)
    requires Inv(topo, st) && forall f :: f in more ==> FrameOk(topo, st.tables, f)
    ensures Inv(topo, st.(wire := st.wire + more))
  {
  }

  /** Learning keeps the invariant: what was not known before lies where the frame came from. */
  lemma LearningKeepsInv(topo: Topology, st: State, r: nat, f: Frame, u: Table)
    requires Inv(topo, st) && r < |topo| && f in st.wire && f.net in topo[r] && f.sender != topo[r][f.net]
    requires Grows(st.tables[r], u, f.net, f.sender, Claims(f.npdu))
    ensures Inv(topo, st.(tables := st.tables[r := u]))
  {
    var t := st.tables[r];
    var tables' := st.tables[r := u];
    forall n, net | Settled(topo, st.tables, n, net) ensures Settled(topo, tables', n, net) {
      SettledKept(topo, st.tables, tables', n, net);
    }
    forall x, net | 0 <= x < |topo| && Known(tables'[x], net)
      ensures RouteSound(topo, x, tables'[x], net) && Settled(topo, tables', Resolve(tables'[x], net).port, net)
    {
      if Known(st.tables[x], net) {
        assert RouteSound(topo, x, st.tables[x], net);
      } else {
        assert x == r && net in Claims(f.npdu);
        assert FrameOk(topo, st.tables, f);
        assert Resolve(u, net) == Via(f.net, NextHop.Through(f.sender));
      }
    }
    forall g | g in st.wire ensures FrameOk(topo, tables', g) {
      assert FrameOk(topo, st.tables, g);
    }
  }

  lemma StepKeepsInv(topo: Topology, st: State, e: Event)
    requires Inv(topo, st) && Enabled(topo, st, e)
    ensures Inv(topo, After(topo, st, e))
  {
    match e
    case Inject(f) => WireGrows(topo, st, {f});
    case Announce(r, net) =>
      IAmHonest(st.tables[r], net, 0);
      SendsOk(topo, st, r, IAmRouter(st.tables[r], net, 0));
      WireGrows(topo, st, FramesOf(topo[r], IAmRouter(st.tables[r], net, 0)));
    case Receive(r, f) =>
      var out := Handle(st.tables[r], f.net, f.sender, f.npdu);
      HandleGrows(st.tables[r], f.net, f.sender, f.npdu);
      HandleHonest(st.tables[r], f.net, f.sender, f.npdu);
      var learned := st.(tables := st.tables[r := out.table]);
      LearningKeepsInv(topo, st, r, f, out.table);
      SendsOk(topo, learned, r, out.sends);
      WireGrows(topo, learned, FramesOf(topo[r], out.sends));
  }

  lemma {:induction false} RunKeepsInv(topo: Topology, st: State, events: seq<Event>, st': State)
    requires Inv(topo, st) && Reaches(topo, st, events, st')
    ensures Inv(topo, st')
    decreases |events|
  {
    if events != [] {
      StepKeepsInv(topo, st, events[0]);
      RunKeepsInv(topo, After(topo, st, events[0]), events[1..], st');
    }
  }

  // ----- route soundness over every run -----

  /** In any internetwork, after any interleaving of announcements, Who-Is floods, relays and
      losses, an entry names a port of the router, the network really can be reached through that
      port without coming back through the router, and a next router is really on that network. */
  lemma RouteSoundness(topo: Topology, st: State, events: seq<Event>, st': State, r: nat, net: Net)
    requires Start(topo, st) && Reaches(topo, st, events, st')
    requires r < |topo| && |st'.tables| == |topo| && Known(st'.tables[r], net)
    ensures RouteSound(topo, r, st'.tables[r], net)
  {
    StartInv(topo, st);
    RunKeepsInv(topo, st, events, st');
  }

  /** With a single message path the entry is the only right answer: a network lies beyond a port
      of the router if and only if that is the port the table gives. */
  lemma RoutesAreExact(topo: Topology, st: State, events: seq<Event>, st': State, r: nat, net: Net, q: Net)
    requires Start(topo, st) && Reaches(topo, st, events, st') && Acyclic(topo)
    requires r < |topo| && q in topo[r] && |st'.tables| == |topo| && Known(st'.tables[r], net)
    ensures SameSide(topo, r, q, net) <==> Resolve(st'.tables[r], net).port == q
  {
    RouteSoundness(topo, st, events, st', r, net);
    SoundRouteIsExact(topo, r, st'.tables[r], net, q);
  }

  lemma SoundRouteIsExact(topo: Topology, r: nat, t: Table, net: Net, q: Net)
    requires Acyclic(topo) && r < |topo| && q in topo[r] && Known(t, net) && RouteSound(topo, r, t, net)
    ensures SameSide(topo, r, q, net) <==> Resolve(t, net).port == q
  {
    var p := Resolve(t, net).port;
    if SameSide(topo, r, q, net) {
      SameSideSym(topo, r, p, net);
      SameSideTrans(topo, r, q, net, p);
    }
  }
}
