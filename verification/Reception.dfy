/** Routers work on octets. What a router does with the octets of a message is what `Handle` does with the message,
    over whole runs; and the octets that leave it are laid out as clause 6.2 of ANSI/ASHRAE 135 asks. */
module Reception {
  import opened Octets
  import opened NpduCodec
  import opened RoutingTable
  import opened Routing
  import opened RouterLaws
  import opened RouterDevice
  import opened Topology
  import opened Internetwork

  // ----- the octets of a message -----

  function AddressSize(present: bool, adr: Mac): nat {
    if present then 3 + |adr| else 0
  }

  /** A network number most significant octet first, the length of an address, and the address. */
  predicate AddressAt(s: seq<Octet>, at: nat, net: Net, adr: Mac) {
    && at + 3 + |adr| <= |s|
    && s[at] == net / 0x100 && s[at + 1] == net % 0x100 && s[at + 2] == |adr| && s[at + 3..at + 3 + |adr|] == adr
  }

  lemma AddressIsAt(before: seq<Octet>, net: Net, adr: Mac, rest: seq<Octet>)
    ensures AddressAt(before + (EncodeAddress(net, adr) + rest), |before|, net, adr)
    ensures (before + (EncodeAddress(net, adr) + rest))[|before| + 3 + |adr|..] == rest
  {
    var s := before + (EncodeAddress(net, adr) + rest);
    assert EncodeAddress(net, adr)[3..] == adr && |EncodeAddress(net, adr)| == 3 + |adr|;
    assert s[|before|..] == EncodeAddress(net, adr) + rest;
  }

  /** Where the source, the hop count, the message type and the payload begin. */
  function SourceAt(m: Npdu): nat {
    2 + AddressSize(m.dnet != 0, m.dadr)
  }

  function HopAt(m: Npdu): nat {
    SourceAt(m) + AddressSize(m.HasSource(), m.sadr)
  }

  function TypeAt(m: Npdu): nat {
    HopAt(m) + if m.dnet != 0 then 1 else 0
  }

  function PayloadAt(m: Npdu): nat {
    TypeAt(m) + if m.content.Apdu? then 0 else if m.content.kind >= 128 then 3 else 1
  }

  /** First version 1, the control octet and the destination. */
  lemma LayoutFront(m: Npdu)
    ensures var s := Encode(m);
            && |s| == PayloadAt(m) + |Payload(m.content)| && s[0] == 1
            && s[1] == (if m.content.Control? then 128 else 0) + (if m.dnet != 0 then 32 else 0)
                       + (if m.snet != 0 && m.sadr != [] then 8 else 0) + (if m.expectingReply then 4 else 0)
                       + m.priority
            && (m.dnet != 0 ==> AddressAt(s, 2, m.dnet, m.dadr))
  {
    var src, hop, con, pay := EncodeSource(m), EncodeHop(m), EncodeContentHeader(m.content), Payload(m.content);
    Chain([1, m.ControlOctet()], EncodeDestination(m), src, hop, con, pay);
    if m.dnet != 0 { AddressIsAt([1, m.ControlOctet()], m.dnet, m.dadr, src + (hop + (con + pay))); }
  }

  /** Then the source, if both its fields are there, and behind it the hop count, if there is a destination. */
  lemma LayoutMiddle(m: Npdu)
    ensures var s := Encode(m);
            && |s| >= PayloadAt(m)
            && (m.snet != 0 && m.sadr != [] ==> AddressAt(s, SourceAt(m), m.snet, m.sadr))
            && (m.dnet != 0 ==> s[HopAt(m)] == m.hop)
  {
    LayoutFront(m);
    var a, d := [1, m.ControlOctet()], EncodeDestination(m);
    var src, hop, con, pay := EncodeSource(m), EncodeHop(m), EncodeContentHeader(m.content), Payload(m.content);
    Chain(a, d, src, hop, con, pay);
    assert |a + d| == SourceAt(m) && |a| + |d| + |src| == HopAt(m);
    if m.HasSource() { AddressIsAt(a + d, m.snet, m.sadr, hop + (con + pay)); }
    if m.dnet != 0 { assert Encode(m)[HopAt(m)..][0] == m.hop; }
  }

  lemma LayoutTail(m: Npdu)
    ensures TypeAt(m) + |EncodeContentHeader(m.content)| == PayloadAt(m) <= |Encode(m)|
    ensures Encode(m)[TypeAt(m)..] == EncodeContentHeader(m.content) + Payload(m.content)
  {
    LayoutFront(m);
    var a, d := [1, m.ControlOctet()], EncodeDestination(m);
    var src, hop, con, pay := EncodeSource(m), EncodeHop(m), EncodeContentHeader(m.content), Payload(m.content);
    Chain(a, d, src, hop, con, pay);
    assert |a| + |d| + |src| + |hop| == TypeAt(m);
  }

  /** Then, in a network-layer message, its type and, of a type that is not the standard's, the vendor; and last the
      payload. */
  lemma LayoutEnd(m: Npdu)
    ensures var s := Encode(m);
            && |s| >= PayloadAt(m) && s[PayloadAt(m)..] == Payload(m.content)
            && (m.content.Control? ==> s[TypeAt(m)] == m.content.kind)
            && (m.content.Control? && m.content.kind >= 128 ==>
                  && s[TypeAt(m) + 1] == m.content.vendor / 0x100 && s[TypeAt(m) + 2] == m.content.vendor % 0x100)
  {
    var s, con := Encode(m), EncodeContentHeader(m.content);
    LayoutTail(m);
    TwoParts(s, TypeAt(m), con, Payload(m.content));
    if m.content.Control? {
      assert s[TypeAt(m) + 0] == con[0];
    }
  }

  lemma TwoParts(s: seq<Octet>, k: nat, a: seq<Octet>, b: seq<Octet>)
    requires k <= |s| && s[k..] == a + b
    ensures k + |a| <= |s| && s[k + |a|..] == b && forall i :: 0 <= i < |a| ==> s[k + i] == a[i]
  {
    assert s[k + |a|..] == s[k..][|a|..];
    assert forall i :: 0 <= i < |a| ==> s[k + i] == s[k..][i];
  }

  lemma Chain(a: seq<Octet>, b: seq<Octet>, c: seq<Octet>, d: seq<Octet>, e: seq<Octet>, f: seq<Octet>)
    ensures var s := a + b + c + d + e + f;
            && s == a + (b + (c + (d + (e + f)))) && s == (a + b) + (c + (d + (e + f)))
            && s[|a| + |b| + |c|..] == d + (e + f) && s[|a| + |b| + |c| + |d|..] == e + f
            && s[|a| + |b| + |c| + |d| + |e|..] == f
  {
  }

  // ----- what is received -----

  /** Octets with a well-formed header are handled as the message they hold. */
  lemma DecodedIsHandled(t: Table, snet: Net, mac: Mac, pdu: seq<Octet>, m: Npdu)
    requires pdu != [] && pdu[0] == 1 && Decode(pdu) == Decoded(m)
    ensures HandlePdu(t, snet, mac, pdu) == Handle(t, snet, mac, m)
    ensures HandOverPdu(mac, pdu) == HandOver(mac, m)
  {
  }

  /** So the octets of any message that the wire can carry are handled as that message. */
  lemma CanonicalIsHandled(t: Table, snet: Net, mac: Mac, m: Npdu)
    requires m.Canonical()
    ensures HandlePdu(t, snet, mac, Encode(m)) == Handle(t, snet, mac, m)
    ensures HandOverPdu(mac, Encode(m)) == HandOver(mac, m)
  {
    WireIdentity(m);
    LayoutFront(m);
    DecodedIsHandled(t, snet, mac, Encode(m), m);
  }

  /** An address is malformed when it says it is longer than the octets that are left, or than an address can be. */
  predicate BadAddress(present: bool, s: seq<Octet>) {
    present && |s| >= 3 && (s[2] > 7 || |s| < 3 + s[2])
  }

  /** What of the octets lies behind an address. */
  function Past(present: bool, s: seq<Octet>): seq<Octet>
    requires !BadAddress(present, s)
  {
    if present && |s| >= 3 then s[3 + s[2]..] else s
  }

  /** Discarded, without a trace, are another version, headers cut short and malformed addresses, and nothing else. */
  lemma DiscardedWhen(s: seq<Octet>)
    ensures Decode(s) == Discarded
            <==> || |s| < 2
                 || BadAddress(s[1] / 32 % 2 == 1, s[2..])
                 || BadAddress(s[1] / 8 % 2 == 1, Past(s[1] / 32 % 2 == 1, s[2..]))
  {
  }

  lemma IgnoredPdu(t: Table, snet: Net, mac: Mac, pdu: seq<Octet>)
    requires pdu == [] || pdu[0] != 1 || Decode(pdu) == Discarded
    ensures HandlePdu(t, snet, mac, pdu) == Outcome(t, []) && HandOverPdu(mac, pdu) == []
  {
  }

  // ----- what is sent for it -----

  /** The PDUs that go out on port `p`. */
  function PdusOn(pdus: seq<Pdu>, p: Net): seq<Pdu> {
    if pdus == [] then [] else (if pdus[0].net == p then [pdus[0]] else []) + PdusOn(pdus[1..], p)
  }

  lemma {:induction false} TransmitOn(sends: seq<Send>, p: Net)
    ensures PdusOn(Transmit(sends), p) == Transmit(OnPort(sends, p))
  {
    if sends != [] {
      var s := sends[0];
      TransmitOn(sends[1..], p);
      assert Transmit(sends)[1..] == Transmit(sends[1..]);
      TransmitConcat(if s.net == p then [s] else [], OnPort(sends[1..], p));
      assert [s][1..] == [];
    }
  }

  lemma TransmitOne(s: Send)
    ensures Transmit([s]) == [Pdu(s.net, s.mac, Encode(s.npdu))]
  {
    assert [s][1..] == [];
  }

  /** The octets of an APDU on its last network: the control octet, its source, and the APDU as it came. */
  function LastOctets(snet: Net, mac: Mac, m: Npdu): seq<Octet> {
    var net, adr := if m.snet != 0 then m.snet else snet, if m.snet != 0 then m.sadr else mac;
    [1, 8 + (if m.expectingReply then 4 else 0) + m.priority, net / 0x100, net % 0x100, |adr|] + adr
    + Payload(m.content)
  }

  lemma LastOctetsAre(snet: Net, mac: Mac, m: Npdu)
    requires Directed(snet, mac, m)
    ensures Encode(Named(snet, mac, m, 0, [], 0)) == LastOctets(snet, mac, m)
  {
    var n := Named(snet, mac, m, 0, [], 0);
    assert EncodeDestination(n) == [] && EncodeHop(n) == [] && EncodeContentHeader(n.content) == [];
  }

  /** Received as octets, a directed message for a network of the router's own goes out there, in these octets, to
      the station addressed, and nowhere else. */
  lemma OctetsDelivered(t: Table, snet: Net, mac: Mac, m: Npdu)
    requires Sound(t, snet) && Directed(snet, mac, m) && m.Canonical() && m.hop > 1 && HasPort(t, m.dnet)
    ensures Transmit(HandlePdu(t, snet, mac, Encode(m)).sends) == [Pdu(m.dnet, m.dadr, LastOctets(snet, mac, m))]
  {
    PortKnown(t, m.dnet);
    CanonicalIsHandled(t, snet, mac, m);
    KnownIsRelayed(t, snet, mac, m);
    LastOctetsAre(snet, mac, m);
    TransmitOne(Send(m.dnet, m.dadr, Named(snet, mac, m, 0, [], 0)));
  }

  lemma PortKnown(t: Table, net: Net)
    requires HasPort(t, net)
    ensures Known(t, net)
  {
    var j :| 0 <= j < |t| && t[j].net == net;
    assert t[j].Nets()[0] == net;
  }

  /** For a network that was learned it goes to the next router on, with its source named and one hop less. */
  lemma OctetsPassedOn(t: Table, snet: Net, mac: Mac, m: Npdu)
    requires Sound(t, snet) && Directed(snet, mac, m) && m.Canonical() && m.hop > 1
    requires Known(t, m.dnet) && !HasPort(t, m.dnet)
    ensures Transmit(HandlePdu(t, snet, mac, Encode(m)).sends)
            == [Pdu(Resolve(t, m.dnet).port, Resolve(t, m.dnet).hop.mac,
                    Encode(Named(snet, mac, m, m.dnet, m.dadr, m.hop - 1)))]
  {
    CanonicalIsHandled(t, snet, mac, m);
    KnownIsRelayed(t, snet, mac, m);
    TransmitOne(Handle(t, snet, mac, m).sends[0]);
  }

  /** For an unknown network it goes out once on every other port, and on every port a question does. */
  lemma OctetsFlooded(t: Table, snet: Net, mac: Mac, m: Npdu, p: Net)
    requires Sound(t, snet) && Directed(snet, mac, m) && m.Canonical() && m.hop > 1
    requires !Known(t, m.dnet) && p in PortNets(t)
    ensures PdusOn(Transmit(HandlePdu(t, snet, mac, Encode(m)).sends), p)
            == (if p != snet then [Pdu(p, [], Encode(Named(snet, mac, m, m.dnet, m.dadr, m.hop - 1)))] else [])
               + [Pdu(p, [], [1, 0xA0, 0xFF, 0xFF, 0, 255, 0, m.dnet / 0x100, m.dnet % 0x100])]
  {
    CanonicalIsHandled(t, snet, mac, m);
    UnknownIsFlooded(t, snet, mac, m, p);
    var copy := Send(p, [], Named(snet, mac, m, m.dnet, m.dadr, m.hop - 1));
    var ask := Send(p, [], Question(m.dnet));
    TransmitOn(Handle(t, snet, mac, m).sends, p);
    TransmitOne(copy);
    TransmitOne(ask);
    TransmitConcat(if p != snet then [copy] else [], [ask]);
    QuestionOctets(m.dnet);
  }

  lemma QuestionOctets(net: Net)
    requires net != 0
    ensures Encode(Question(net)) == [1, 0xA0, 0xFF, 0xFF, 0, 255, 0, net / 0x100, net % 0x100]
  {
    var m := Question(net);
    assert EncodeSource(m) == [] && EncodeDestination(m) == [0xFF, 0xFF, 0] && EncodeHop(m) == [255];
    assert EncodeContentHeader(m.content) == [0];
  }

  // ----- over runs -----

  ghost predicate CanonicalWire(st: State) {
    forall f :: f in st.wire ==> f.npdu.Canonical()
  }

  /** Stations send only what the wire can carry. */
  ghost predicate CanonicalStations(events: seq<Event>) {
    forall e :: e in events && e.Inject? ==> e.frame.npdu.Canonical()
  }

  lemma AnnouncedCanonical(t: Table, snet: Net, net: Net)
    ensures forall s :: s in IAmRouter(t, snet, net) ==> s.npdu.Canonical()
  {
  }

  lemma StepCanonical(topo: Topology, st: State, e: Event)
    requires CanonicalWire(st) && Enabled(topo, st, e) && (e.Inject? ==> e.frame.npdu.Canonical())
    ensures CanonicalWire(After(topo, st, e))
  {
    if e.Announce? {
      AnnouncedCanonical(st.tables[e.router], e.net, 0);
    } else if e.Receive? {
      forall s | s in Handle(st.tables[e.router], e.frame.net, e.frame.sender, e.frame.npdu).sends
        ensures s.npdu.Canonical()
      {
        SendsCanonical(st.tables[e.router], e.frame.net, e.frame.sender, e.frame.npdu, s);
      }
    }
  }

  /** In every state of every run, a router that takes the octets of a frame off the wire does exactly what the
      events of the run say: same table, same frames sent. So all that is proved of runs is proved of octets. */
  lemma {:induction false} RunOnOctets(topo: Topology, st: State, events: seq<Event>, st': State, r: nat, f: Frame)
    requires (Start(topo, st) || CanonicalWire(st)) && CanonicalStations(events) && Reaches(topo, st, events, st')
    requires Enabled(topo, st', Receive(r, f))
    ensures var out := HandlePdu(st'.tables[r], f.net, f.sender, Encode(f.npdu));
            After(topo, st', Receive(r, f))
            == State(st'.tables[r := out.table], st'.wire + FramesOf(topo[r], out.sends))
    ensures CanonicalWire(st')
    decreases |events|
  {
    if events == [] {
      CanonicalIsHandled(st.tables[r], f.net, f.sender, f.npdu);
    } else {
      assert events[0] in events;
      StepCanonical(topo, st, events[0]);
      RunOnOctets(topo, After(topo, st, events[0]), events[1..], st', r, f);
    }
  }

  // ----- a router just started -----

  /** A station's directed APDU in octets: no source, normal priority, no reply expected. */
  function StationOctets(dnet: Net, dadr: Mac, hop: Octet, apdu: seq<Octet>): seq<Octet> {
    [1, 0x20, dnet / 0x100, dnet % 0x100, |dadr|] + dadr + ([hop] + apdu)
  }

  lemma StationOctetsAre(dnet: Net, dadr: Mac, hop: Octet, apdu: seq<Octet>)
    requires dnet != 0
    ensures Encode(Npdu(false, 0, dnet, dadr, 0, [], hop, Apdu(apdu))) == StationOctets(dnet, dadr, hop, apdu)
  {
    var m := Npdu(false, 0, dnet, dadr, 0, [], hop, Apdu(apdu));
    assert EncodeSource(m) == [] && EncodeContentHeader(m.content) == [];
  }

  /** From one network of a router to the other, octets in and octets out: the APDU arrives as it was sent, for the
      station addressed, with the number of the network and the address of the station it came from. */
  method Across(bipNet: Net, bipMac: Mac, mstpNet: Net, mstpMac: Mac, mac: Mac, dadr: Mac, hop: Octet,
                apdu: seq<Octet>) returns (router: Router)
    requires bipNet != 0 && mstpNet != 0 && bipNet != mstpNet && mstpNet != BROADCAST && mac != [] && hop > 1
    ensures router.sent
            == [Pdu(mstpNet, dadr, [1, 8, bipNet / 0x100, bipNet % 0x100, |mac|] + mac + apdu)]
    ensures router.handed == []
  {
    ghost var m := Npdu(false, 0, mstpNet, dadr, 0, [], hop, Apdu(apdu));
    ghost var t := [Port(bipNet, bipMac, []), Port(mstpNet, mstpMac, [])];
    router := new Router(bipNet, bipMac, mstpNet, mstpMac, 24 + |apdu|);
    StationOctetsAre(mstpNet, dadr, hop, apdu);
    TwoPorts(bipNet, bipMac, mstpNet, mstpMac);
    OctetsDelivered(t, bipNet, mac, m);
    CanonicalIsHandled(t, bipNet, mac, m);
    KnownIsRelayed(t, bipNet, mac, m);
    LastOctetsAre(bipNet, mac, m);
    assert |LastOctets(bipNet, mac, m)| <= 24 + |apdu|;
    router.Receive(bipNet, mac, StationOctets(mstpNet, dadr, hop, apdu));
  }

  lemma TwoPorts(a: Net, amac: Mac, b: Net, bmac: Mac)
    requires a != 0 && b != 0 && a != b
    ensures var t := [Port(a, amac, []), Port(b, bmac, [])];
            Sound(t, a) && Sound(t, b) && HasPort(t, a) && HasPort(t, b) && Known(t, a) && Known(t, b)
  {
    var t := [Port(a, amac, []), Port(b, bmac, [])];
    assert t[0].Nets() == [a] && t[1].Nets() == [b];
    assert PortNets(t) == [a, b];
    assert t[0].net == a && t[1].net == b;
    PortKnown(t, a);
    PortKnown(t, b);
  }
}
