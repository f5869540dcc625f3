/** What a router does with one received NPDU, as a function of its table: the new
    table and the NPDUs it sends, in order. */
module Routing {
  import opened Octets
  import opened NpduCodec
  import opened RoutingTable

  /** An NPDU handed to the data link of the port on `net`, for the MAC address `mac`
      (empty for the local broadcast). */
  datatype Send = Send(net: Net, mac: Mac, npdu: Npdu)

  datatype Outcome = Outcome(table: Table, sends: seq<Send>)

  const WHO_IS_ROUTER: Octet := 0
  const I_AM_ROUTER: Octet := 1
  const REJECT_MESSAGE: Octet := 3
  const INIT_RT_TABLE: Octet := 6
  const INIT_RT_TABLE_ACK: Octet := 7
  const REJECT_UNKNOWN_MESSAGE_TYPE: Octet := 3

  /** HOP_COUNT_DEFAULT. */
  const FIRST_HOP_COUNT: Octet := 255

  function PortNets(t: Table): (ns: seq<Net>)
    ensures |ns| == |t| && forall i :: 0 <= i < |t| ==> ns[i] == t[i].net
  {
    seq(|t|, i requires 0 <= i < |t| => t[i].net)
  }

  /** `datalink_send_pdu`: network 0 stands for every port. */
  function SendTo(nets: seq<Net>, net: Net, mac: Mac, m: Npdu): seq<Send> {
    if net == 0 then SendAll(nets, mac, m)
    else if net in nets then [Send(net, mac, m)] else []
  }

  function SendAll(nets: seq<Net>, mac: Mac, m: Npdu): (ss: seq<Send>)
    ensures |ss| == |nets| && forall i :: 0 <= i < |nets| ==> ss[i] == Send(nets[i], mac, m)
  {
    seq(|nets|, i requires 0 <= i < |nets| => Send(nets[i], mac, m))
  }

  /** The ports other than the one the message arrived on. */
  function Others(nets: seq<Net>, snet: Net): (ns: seq<Net>)
    ensures |ns| <= |nets|
    ensures forall n :: n in ns <==> n in nets && n != snet
  {
    if nets == [] then [] else (if nets[0] != snet then [nets[0]] else []) + Others(nets[1..], snet)
  }

  /** A network-layer message as this router originates it: broadcast, no source. */
  function ControlMessage(kind: Octet, payload: seq<Octet>): Npdu {
    Npdu(false, 0, BROADCAST, [], 0, [], FIRST_HOP_COUNT, Control(kind, 0, payload))
  }

  /** `send_i_am_router_to_network(snet, net)`. */
  function IAmRouter(t: Table, snet: Net, net: Net): seq<Send> {
    var payload := if net != 0 then EncodeNet(net) else EncodeNets(Announcement(t, snet));
    SendTo(PortNets(t), snet, [], ControlMessage(I_AM_ROUTER, payload))
  }

  /** `send_who_is_router_to_network(snet, dnet)`. */
  function WhoIsRouter(t: Table, snet: Net, dnet: Net): seq<Send> {
    SendTo(PortNets(t), snet, [], ControlMessage(WHO_IS_ROUTER, if dnet != 0 then EncodeNet(dnet) else []))
  }

  function WhoIsOnEach(t: Table, nets: seq<Net>, dnet: Net): seq<Send> {
    if nets == [] then [] else WhoIsRouter(t, nets[0], dnet) + WhoIsOnEach(t, nets[1..], dnet)
  }

  /** `who_is_router_to_network_handler`. */
  function AnswerWhoIs(t: Table, snet: Net, payload: seq<Octet>): seq<Send> {
    if |payload| < 2 then IAmRouter(t, snet, 0)
    else
      var net := DecodeNet(payload);
      if !Known(t, net) then WhoIsOnEach(t, Others(PortNets(t), snet), net)
      else if Resolve(t, net).port != snet then IAmRouter(t, snet, net)
      else []
  }

  /** The payload `send_initialize_routing_table_ack` prints: a count, then for each port its
      network, a running port ID and an empty port information field. Both counters are octets. */
  function AckPayload(nets: seq<Net>): seq<Octet> {
    [|nets| % 0x100] + AckEntries(nets, 1)
  }

  function AckEntries(nets: seq<Net>, id: Octet): seq<Octet> {
    if nets == [] then [] else EncodeNet(nets[0]) + [id, 0] + AckEntries(nets[1..], (id + 1) % 0x100)
  }

  /** `send_initialize_routing_table_ack`, which takes the network number of the port in eight bits. */
  function AckOn(t: Table, port: Octet): seq<Send> {
    SendTo(PortNets(t), port, [], ControlMessage(INIT_RT_TABLE_ACK, AckPayload(PortNets(t))))
  }

  function InitTableAck(t: Table, snet: Net): seq<Send> {
    AckOn(t, snet % 0x100)
  }

  /** `send_reject_message_to_network` back to the sender. */
  function RejectUnknown(t: Table, snet: Net, mac: Mac, m: Npdu): seq<Send> {
    SendTo(PortNets(t), snet, mac,
           ControlMessage(REJECT_MESSAGE, [REJECT_UNKNOWN_MESSAGE_TYPE])
           .(dnet := m.snet, dadr := if m.snet == 0 then [] else m.sadr,
             hop := if m.snet == 0 then 0 else FIRST_HOP_COUNT))
  }

  /** `network_control_handler`. An Initialize-Routing-Table list is re-read from its first
      entry for every port it announces, so only that entry is ever learned. */
  function HandleControl(t: Table, snet: Net, mac: Mac, m: Npdu): Outcome
    requires m.content.Control?
  {
    var kind, payload := m.content.kind, m.content.payload;
    if kind == WHO_IS_ROUTER then Outcome(t, AnswerWhoIs(t, snet, payload))
    else if kind == I_AM_ROUTER then Outcome(LearnAll(t, snet, DecodeNets(payload), mac), [])
    else if kind == INIT_RT_TABLE then
      if payload == [] then Outcome(t, [])
      else if payload[0] == 0 || |payload| < 3 then Outcome(t, InitTableAck(t, snet))
      else
        var t' := DnetAdd(t, snet, DecodeNet(payload[1..]), mac);
        Outcome(t', InitTableAck(t', snet))
    else if kind in {2, 3, 4, 5, 7, 8, 9} then Outcome(t, [])
    else Outcome(t, RejectUnknown(t, snet, mac, m))
  }

  /** `routed_src_address`: a source behind a router is learned and kept; a local one is
      named by the network it was heard on. */
  function LearnSource(t: Table, snet: Net, mac: Mac, m: Npdu): Table {
    if m.snet != 0 then DnetAdd(t, snet, m.snet, mac) else t
  }

  /** The NPDU as relayed: one hop less, its source filled in, and the source fields
      present on the wire only together. */
  function Relayed(snet: Net, mac: Mac, m: Npdu, dnet: Net, dadr: Mac): Npdu {
    var net := if m.snet != 0 then m.snet else snet;
    var adr := if m.snet != 0 then m.sadr else mac;
    var named := net != 0 && adr != [];
    m.(dnet := dnet, dadr := if dnet == 0 then [] else dadr,
       snet := if named then net else 0, sadr := if named then adr else [],
       hop := if dnet == 0 then 0 else (m.hop + 255) % 0x100)
  }

  /** `routed_apdu_handler`. */
  function RouteApdu(t: Table, snet: Net, mac: Mac, m: Npdu): Outcome {
    var others := Others(PortNets(t), snet);
    if m.dnet == BROADCAST then
      Outcome(LearnSource(t, snet, mac, m), SendAll(others, [], Relayed(snet, mac, m, BROADCAST, [])))
    else if Known(t, m.dnet) then
      var via := Resolve(t, m.dnet);
      match via.hop
      case Direct =>
        Outcome(LearnSource(t, snet, mac, m), [Send(via.port, m.dadr, Relayed(snet, mac, m, 0, []))])
      case Through(next) =>
        Outcome(LearnSource(t, snet, mac, m), [Send(via.port, next, Relayed(snet, mac, m, m.dnet, m.dadr))])
    else if m.dnet != 0 then
      Outcome(LearnSource(t, snet, mac, m),
              SendAll(others, [], Relayed(snet, mac, m, m.dnet, m.dadr)) + WhoIsRouter(t, 0, m.dnet))
    else Outcome(t, [])
  }

  /** PDU_TYPE_CONFIRMED_SERVICE_REQUEST in the first octet of an APDU. */
  predicate Confirmed(apdu: seq<Octet>) {
    apdu != [] && apdu[0] / 0x10 == 0
  }

  /** `my_routing_npdu_handler`, once the header is decoded. */
  function Handle(t: Table, snet: Net, mac: Mac, m: Npdu): Outcome {
    match m.content
    case Control(_, _, _) =>
      if m.dnet == 0 || m.dnet == BROADCAST then HandleControl(t, snet, mac, m) else Outcome(t, [])
    case Apdu(apdu) =>
      if m.dnet != 0 && m.dnet != BROADCAST && m.hop <= 1 then Outcome(t, [])
      else if m.dnet == BROADCAST && Confirmed(apdu) then Outcome(t, [])
      else RouteApdu(t, snet, mac, m)
  }

  // ----- facts every run uses -----

  lemma DnetAddKeepsPorts(t: Table, snet: Net, net: Net, mac: Mac)
    ensures PortNets(DnetAdd(t, snet, net, mac)) == PortNets(t)
  {
  }

  lemma {:induction false} LearnAllKeepsPorts(t: Table, snet: Net, nets: seq<Net>, mac: Mac)
    ensures PortNets(LearnAll(t, snet, nets, mac)) == PortNets(t)
    decreases |nets|
  {
    if nets != [] {
      DnetAddKeepsPorts(t, snet, nets[0], mac);
      LearnAllKeepsPorts(DnetAdd(t, snet, nets[0], mac), snet, nets[1..], mac);
    }
  }

  lemma HandleControlKeepsPorts(t: Table, snet: Net, mac: Mac, m: Npdu)
    requires m.content.Control?
    ensures PortNets(HandleControl(t, snet, mac, m).table) == PortNets(t)
  {
    var kind, payload := m.content.kind, m.content.payload;
    if kind == I_AM_ROUTER {
      LearnAllKeepsPorts(t, snet, DecodeNets(payload), mac);
    } else if kind == INIT_RT_TABLE && |payload| >= 3 {
      DnetAddKeepsPorts(t, snet, DecodeNet(payload[1..]), mac);
    }
  }

  lemma RouteTable(t: Table, snet: Net, mac: Mac, m: Npdu)
    ensures var u := RouteApdu(t, snet, mac, m).table; u == t || u == LearnSource(t, snet, mac, m)
  {
  }

  /** A relayed message changes the table by its source only. */
  lemma ApduTable(t: Table, snet: Net, mac: Mac, m: Npdu)
    requires m.content.Apdu?
    ensures var u := Handle(t, snet, mac, m).table;
            u == t || (m.snet != 0 && u == DnetAdd(t, snet, m.snet, mac))
  {
    RouteTable(t, snet, mac, m);
  }

  /** No message changes which networks a router is directly connected to. */
  lemma HandleKeepsPorts(t: Table, snet: Net, mac: Mac, m: Npdu)
    ensures PortNets(Handle(t, snet, mac, m).table) == PortNets(t)
  {
    if m.content.Control? {
      HandleControlKeepsPorts(t, snet, mac, m);
    } else {
      ApduTable(t, snet, mac, m);
      DnetAddKeepsPorts(t, snet, m.snet, mac);
    }
  }

  /** A Who-Is-Router for a known network is answered on its arrival port if and only if the network is in the
      list announced there: with that network or, as 0 stands for all, with the whole list. */
  lemma KnownIsAnswered(t: Table, snet: Net, net: Net)
    requires Distinct(t) && Known(t, net)
    ensures AnswerWhoIs(t, snet, EncodeNet(net))
            == if net !in Announcement(t, snet) then []
               else SendTo(PortNets(t), snet, [],
                           ControlMessage(I_AM_ROUTER,
                                          if net != 0 then EncodeNet(net) else EncodeNets(Announcement(t, snet))))
  {
    NetRoundTrip(net, []);
    assert EncodeNet(net) + [] == EncodeNet(net);
    SplitHorizon(t, snet);
  }

  /** The acknowledgement of a router with several ports goes out on its arrival port, and on no other, if and
      only if the number of that port's network fits eight bits. */
  lemma AckReturnsWhen(t: Table, snet: Net)
    requires |t| >= 2 && snet in PortNets(t) && snet != 0
    ensures (exists m :: InitTableAck(t, snet) == [Send(snet, [], m)]) <==> snet < 0x100
  {
    var low: Net := snet % 0x100;
    var m := ControlMessage(INIT_RT_TABLE_ACK, AckPayload(PortNets(t)));
    assert InitTableAck(t, snet) == SendTo(PortNets(t), low, [], m);
    if snet < 0x100 {
      assert InitTableAck(t, snet) == [Send(snet, [], m)];
    } else {
      assert low < snet;
    }
  }

  // ----- what the router's own application layer is given -----

  /** An APDU for this device, with the station it came from and the source the message names. */
  datatype Handed = Handed(mac: Mac, snet: Net, sadr: Mac, apdu: seq<Octet>)

  /** Local and broadcast APDUs go to the application layer too, but no confirmed requests that are broadcast. */
  function HandOver(mac: Mac, m: Npdu): seq<Handed> {
    if m.content.Apdu? && (m.dnet == 0 || (m.dnet == BROADCAST && !Confirmed(m.content.apdu)))
    then [Handed(mac, m.snet, m.sadr, m.content.apdu)] else []
  }

  /** What is handed over is not for one remote network; and what is relayed and handed over is a broadcast, or
      a message to a network 0 that was learned. */
  lemma RelayedOrHanded(t: Table, snet: Net, mac: Mac, m: Npdu)
    requires m.content.Apdu? && HandOver(mac, m) != [] && Handle(t, snet, mac, m).sends != []
    ensures m.dnet == BROADCAST || (m.dnet == 0 && Known(t, 0))
  {
  }
}
