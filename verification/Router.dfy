/** The router itself: its linked routing table, its transmit buffer, and the handlers
    that turn a received PDU into table changes and transmitted PDUs. */
module RouterDevice {
  import opened Octets
  import opened NpduCodec
  import opened RoutingTable
  import opened LinkedTables
  import opened Routing

  /** A PDU handed to the data link of the port on `net`. */
  datatype Pdu = Pdu(net: Net, mac: Mac, octets: seq<Octet>)

  function Transmit(ss: seq<Send>): (ps: seq<Pdu>)
    ensures |ps| == |ss|
  {
    if ss == [] then [] else [Pdu(ss[0].net, ss[0].mac, Encode(ss[0].npdu))] + Transmit(ss[1..])
  }

  lemma {:induction false} TransmitConcat(a: seq<Send>, b: seq<Send>)
    ensures Transmit(a + b) == Transmit(a) + Transmit(b)
  {
    if a == [] {
      assert a + b == b;
    } else {
      assert (a + b)[1..] == a[1..] + b;
      TransmitConcat(a[1..], b);
    }
  }

  /** `my_routing_npdu_handler`: other protocol versions and malformed headers are discarded. */
  function HandlePdu(t: Table, snet: Net, mac: Mac, pdu: seq<Octet>): Outcome {
    if pdu == [] || pdu[0] != 1 then Outcome(t, [])
    else match Decode(pdu)
      case Discarded => Outcome(t, [])
      case Decoded(m) => Handle(t, snet, mac, m)
  }

  /** What of a PDU goes to the application layer. */
  function HandOverPdu(mac: Mac, pdu: seq<Octet>): seq<Handed> {
    if pdu == [] || pdu[0] != 1 then []
    else match Decode(pdu)
      case Discarded => []
      case Decoded(m) => HandOver(mac, m)
  }

  /** Everything to be sent fits the transmit buffer. */
  predicate Fits(ss: seq<Send>, room: nat) {
    forall s :: s in ss ==> |Encode(s.npdu)| <= room
  }

  class Router {
    const bipNet: Net
    const mstpNet: Net
    const routes: LinkedTable
    const tx: array<Octet>
    /** All PDUs handed to the data links so far. */
    var sent: seq<Pdu>
    /** All APDUs handed to the application layer so far. */
    var handed: seq<Handed>

    ghost predicate Valid()
      reads this, routes, routes.repr
    {
      && routes.Valid()
      && bipNet != 0 && mstpNet != 0 && bipNet != mstpNet
      && PortNets(routes.table) == [bipNet, mstpNet]
    }

    /** `datalink_init`: the two home ports are the first entries of the table. */
    constructor (bipNet: Net, bipMac: Mac, mstpNet: Net, mstpMac: Mac, room: nat)
      requires bipNet != 0 && mstpNet != 0 && bipNet != mstpNet
      ensures Valid() && fresh(routes) && fresh(routes.repr) && fresh(tx)
              && tx.Length == room && sent == [] && handed == []
      ensures routes.table == [Port(bipNet, bipMac, []), Port(mstpNet, mstpMac, [])]
    {
      this.bipNet, this.mstpNet := bipNet, mstpNet;
      routes := new LinkedTable();
      tx := new Octet[room](_ => 0);
      sent, handed := [], [];
      new;
      FindIs([], bipNet, 0);
      routes.PortAdd(bipNet, bipMac);
      assert routes.table == [Port(bipNet, bipMac, [])];
      FindIs(routes.table, mstpNet, 1);
      routes.PortAdd(mstpNet, mstpMac);
    }

    /** `datalink_send_pdu`: network 0 stands for both ports. */
    method DatalinkSend(snet: Net, mac: Mac, len: nat, ghost m: Npdu)
      requires Valid() && len <= tx.Length && tx[..len] == Encode(m)
      modifies `sent
      ensures Valid() && sent == old(sent) + Transmit(SendTo([bipNet, mstpNet], snet, mac, m))
    {
      if snet == 0 {
        sent := sent + [Pdu(bipNet, mac, tx[..len]), Pdu(mstpNet, mac, tx[..len])];
        assert SendTo([bipNet, mstpNet], 0, mac, m) == [Send(bipNet, mac, m), Send(mstpNet, mac, m)];
        assert [Send(bipNet, mac, m), Send(mstpNet, mac, m)][1..] == [Send(mstpNet, mac, m)];
      } else if snet == bipNet {
        sent := sent + [Pdu(bipNet, mac, tx[..len])];
      } else if snet == mstpNet {
        sent := sent + [Pdu(mstpNet, mac, tx[..len])];
      }
    }

    /** `send_i_am_router_to_network`. */
    method SendIAmRouter(snet: Net, net: Net)
      requires Valid()
      requires |Encode(IAmMessage(routes.table, snet, net))| <= tx.Length
      modifies `sent, tx
      ensures Valid() && sent == old(sent) + Transmit(IAmRouter(routes.table, snet, net))
    {
      var len := EncodePdu(tx, ControlMessage(I_AM_ROUTER, []));
      if net != 0 {
        len := PutNet(tx, len, net);
      } else {
        len := PutAnnouncement(len, snet);
      }
      DatalinkSend(snet, [], len, IAmMessage(routes.table, snet, net));
    }

    /** Every accessible network except those reachable via `snet`, port by port. */
    method PutAnnouncement(at: nat, snet: Net) returns (len: nat)
      requires Valid() && at + 2 * |Announcement(routes.table, snet)| <= tx.Length
      modifies tx
      ensures len == at + 2 * |Announcement(routes.table, snet)|
      ensures tx[..len] == old(tx[..at]) + EncodeNets(Announcement(routes.table, snet))
    {
      ghost var t, front := routes.table, tx[..at];
      ghost var listed: seq<Net> := [];
      len := at;
      var port := routes.head;
      ghost var i := 0;
      assert t[0..] == t;
      while port != null
        invariant Valid() && routes.table == t
        invariant 0 <= i <= |t| && port == NodeAt(routes.ports, i)
        invariant listed + Announcement(t[i..], snet) == Announcement(t, snet)
        invariant len == at + 2 * |listed| && tx[..len] == front + EncodeNets(listed)
        decreases |t| - i
      {
        assert routes.PortOk(i);
        ghost var part := if t[i].net != snet then t[i].Nets() else [];
        ListStep(t, snet, i, listed, part);
        EncodeNetsConcat(listed, part);
        Associate(front, EncodeNets(listed), EncodeNets(part));
        len := PutPortUnless(len, port, i, snet, part);
        assert tx[..len] == front + EncodeNets(listed + part);
        listed := listed + part;
        port := port.next;
        i := i + 1;
      }
      assert listed + [] == listed;
    }

    method PutPortUnless(at: nat, port: Dnet, ghost i: nat, snet: Net, ghost part: seq<Net>) returns (len: nat)
      requires Valid() && i < |routes.table| && port == routes.ports[i]
      requires part == if routes.table[i].net != snet then routes.table[i].Nets() else []
      requires at + 2 * |part| <= tx.Length
      modifies tx
      ensures len == at + 2 * |part|
      ensures tx[..len] == old(tx[..at]) + EncodeNets(part)
    {
      assert routes.PortOk(i);
      len := at;
      if port.net != snet {
        len := PutPort(len, port, i);
      }
    }

    /** One port's network and the networks learned behind it. */
    method PutPort(at: nat, port: Dnet, ghost i: nat) returns (len: nat)
      requires Valid() && i < |routes.table| && port == routes.ports[i]
      requires at + 2 * |routes.table[i].Nets()| <= tx.Length
      modifies tx
      ensures len == at + 2 * |routes.table[i].Nets()|
      ensures tx[..len] == old(tx[..at]) + EncodeNets(routes.table[i].Nets())
    {
      ghost var front, nets, l := tx[..at], routes.table[i].Nets(), routes.lists[i];
      assert routes.PortOk(i);
      len := PutNet(tx, at, port.net);
      assert nets[..1] == [port.net] && EncodeNets([port.net]) == EncodeNet(port.net);
      var dnet := port.dnets;
      ghost var j := 0;
      while dnet != null
        invariant Valid() && nets == routes.table[i].Nets() && l == routes.lists[i]
        invariant 0 <= j <= |l| == |nets| - 1 && dnet == NodeAt(l, j)
        invariant len == at + 2 * (j + 1)
        invariant tx[..len] == front + EncodeNets(nets[..j + 1])
        decreases |l| - j
      {
        assert routes.RouteOk(i, j);
        assert nets[..j + 2] == nets[..j + 1] + [dnet.net];
        EncodeNetsConcat(nets[..j + 1], [dnet.net]);
        assert EncodeNets([dnet.net]) == EncodeNet(dnet.net);
        len := PutNet(tx, len, dnet.net);
        dnet := dnet.next;
        j := j + 1;
      }
      assert nets[..j + 1] == nets;
    }

    /** `send_who_is_router_to_network`. */
    method SendWhoIsRouter(snet: Net, dnet: Net)
      requires Valid() && tx.Length >= 24
      modifies `sent, tx
      ensures Valid() && sent == old(sent) + Transmit(WhoIsRouter(routes.table, snet, dnet))
    {
      var len := EncodePdu(tx, ControlMessage(WHO_IS_ROUTER, []));
      if dnet != 0 {
        len := PutNet(tx, len, dnet);
      }
      DatalinkSend(snet, [], len, ControlMessage(WHO_IS_ROUTER, if dnet != 0 then EncodeNet(dnet) else []));
    }

    /** `who_is_router_to_network_handler`. */
    method HandleWhoIs(snet: Net, payload: seq<Octet>)
      requires Valid() && Fits(AnswerWhoIs(routes.table, snet, payload), tx.Length) && tx.Length >= 24
      requires snet in PortNets(routes.table)
      modifies `sent, tx
      ensures Valid() && sent == old(sent) + Transmit(AnswerWhoIs(routes.table, snet, payload))
    {
      if |payload| >= 2 {
        var net := DecodeNet(payload);
        var known, port, _ := LookUp(net);
        if known {
          if port != snet {
            IAmFits(routes.table, snet, net, tx.Length);
            SendIAmRouter(snet, net);
          }
        } else {
          AskOthers(snet, net);
        }
      } else {
        IAmFits(routes.table, snet, 0, tx.Length);
        SendIAmRouter(snet, 0);
      }
    }

    method AskUnless(port: Net, snet: Net, net: Net)
      requires Valid() && tx.Length >= 24
      modifies `sent, tx
      ensures Valid()
      ensures sent == old(sent) + if port != snet then Transmit(WhoIsRouter(routes.table, port, net)) else []
    {
      if port != snet {
        SendWhoIsRouter(port, net);
      }
    }

    method AskOthers(snet: Net, net: Net)
      requires Valid() && tx.Length >= 24
      modifies `sent, tx
      ensures Valid() && sent == old(sent)
              + Transmit(WhoIsOnEach(routes.table, Others(PortNets(routes.table), snet), net))
    {
      ghost var t, nets := routes.table, PortNets(routes.table);
      ghost var asked := sent;
      var port := routes.head;
      ghost var i := 0;
      while port != null
        invariant Valid() && routes.table == t
        invariant 0 <= i <= |t| && port == NodeAt(routes.ports, i)
        invariant asked == old(sent) + Transmit(WhoIsOnEach(t, Others(nets[..i], snet), net)) && sent == asked
        decreases |t| - i
      {
        assert routes.PortOk(i);
        asked := AskStep(old(sent), t, nets, snet, net, i);
        AskUnless(port.net, snet, net);
        port := port.next;
        i := i + 1;
      }
      assert i == |t| && nets[..i] == nets;
    }

    /** `send_initialize_routing_table_ack`: the network number, the count and the port ID are octets. */
    method SendInitTableAck(snet: Octet)
      requires Valid() && tx.Length >= 24
      modifies `sent, tx
      ensures Valid() && sent == old(sent) + Transmit(AckOn(routes.table, snet))
    {
      ghost var nets := PortNets(routes.table);
      var len := EncodePdu(tx, ControlMessage(INIT_RT_TABLE_ACK, []));
      ghost var header := tx[..len];
      var count := CountPorts();
      len := PutOctet(tx, len, count);
      if count > 0 {
        len := PutAckEntries(len);
      }
      assert tx[..len] == header + ([count] + AckEntries(nets, 1));
      DatalinkSend(snet, [], len, ControlMessage(INIT_RT_TABLE_ACK, AckPayload(nets)));
    }

    /** The counting loop: both home ports and no more. */
    method CountPorts() returns (count: Octet)
      requires Valid()
      ensures count == |PortNets(routes.table)| % 0x100 == 2
    {
      count := 0;
      var port := routes.head;
      while port != null
        invariant 0 <= count <= 2 && port == NodeAt(routes.ports, count)
        decreases 2 - count
      {
        assert routes.PortOk(count);
        count := (count + 1) % 0x100;
        port := port.next;
      }
    }

    method PutAckEntries(at: nat) returns (len: nat)
      requires Valid() && at + 8 <= tx.Length
      modifies tx
      ensures len == at + 8 && tx[..len] == old(tx[..at]) + AckEntries(PortNets(routes.table), 1)
    {
      ghost var nets, front := PortNets(routes.table), tx[..at];
      ghost var listed: seq<Octet> := [];
      len := at;
      var portId: Octet := 1;
      var port := routes.head;
      ghost var i := 0;
      assert nets[0..] == nets;
      while port != null
        invariant Valid() && nets == PortNets(routes.table) && 0 <= i <= |nets| && port == NodeAt(routes.ports, i)
        invariant listed + AckEntries(nets[i..], portId) == AckEntries(nets, 1)
        invariant len == at + 4 * i && tx[..len] == front + listed && |listed| == 4 * i
        decreases |nets| - i
      {
        assert routes.PortOk(i);
        ghost var entry := EncodeNet(port.net) + [portId, 0];
        assert nets[i..][1..] == nets[i + 1..];
        Associate(listed, entry, AckEntries(nets[i + 1..], (portId + 1) % 0x100));
        len := PutNet(tx, len, port.net);
        len := PutOctet(tx, len, portId);
        portId := (portId + 1) % 0x100;
        len := PutOctet(tx, len, 0);
        assert tx[..len] == front + (listed + entry);
        listed := listed + entry;
        port := port.next;
        i := i + 1;
      }
      assert listed + [] == listed;
    }

    /** `send_reject_message_to_network` with the reason "unknown message type". */
    method SendReject(snet: Net, mac: Mac, m: Npdu)
      requires Valid() && tx.Length >= 24
      modifies `sent, tx
      ensures Valid() && sent == old(sent) + Transmit(RejectUnknown(routes.table, snet, mac, m))
    {
      var reject := ControlMessage(REJECT_MESSAGE, [REJECT_UNKNOWN_MESSAGE_TYPE])
        .(dnet := m.snet, dadr := if m.snet == 0 then [] else m.sadr,
          hop := if m.snet == 0 then 0 else FIRST_HOP_COUNT);
      var len := EncodePdu(tx, reject);
      len := PutOctet(tx, len, REJECT_UNKNOWN_MESSAGE_TYPE);
      DatalinkSend(snet, mac, len, reject);
    }

    /** The I-Am-Router-To-Network branch: learn every listed network. */
    method LearnList(snet: Net, mac: Mac, payload: seq<Octet>)
      requires Valid()
      modifies routes, routes.repr
      ensures Valid() && fresh(routes.repr - old(routes.repr))
      ensures routes.table == LearnAll(old(routes.table), snet, DecodeNets(payload), mac)
    {
      ghost var t := routes.table;
      var offset := 0;
      assert payload[0..] == payload;
      while |payload| - offset >= 2
        invariant Valid() && fresh(routes.repr - old(routes.repr))
        invariant 0 <= offset <= |payload|
        invariant LearnAll(routes.table, snet, DecodeNets(payload[offset..]), mac)
                  == LearnAll(t, snet, DecodeNets(payload), mac)
        decreases |payload| - offset
      {
        assert payload[offset..][2..] == payload[offset + 2..];
        DnetAddKeepsPorts(routes.table, snet, DecodeNet(payload[offset..]), mac);
        routes.DnetAdd(snet, DecodeNet(payload[offset..]), mac);
        offset := offset + 2;
      }
    }

    /** The Initialize-Routing-Table list branch: the offset restarts at the first entry each time round. */
    method LearnInitList(snet: Net, mac: Mac, payload: seq<Octet>)
      requires Valid() && |payload| >= 3 && payload[0] != 0
      modifies routes, routes.repr
      ensures Valid() && fresh(routes.repr - old(routes.repr))
      ensures routes.table == DnetAdd(old(routes.table), snet, DecodeNet(payload[1..]), mac)
    {
      ghost var t := routes.table;
      var netCount := payload[0] as int;
      while netCount > 0
        invariant Valid() && fresh(routes.repr - old(routes.repr))
        invariant 0 <= netCount <= payload[0]
        invariant routes.table == if netCount == payload[0] then t else DnetAdd(t, snet, DecodeNet(payload[1..]), mac)
        decreases netCount
      {
        netCount := netCount - 1;
        var i := 1;
        DnetAddKeepsPorts(routes.table, snet, DecodeNet(payload[i..]), mac);
        DnetAddTwice(t, snet, DecodeNet(payload[i..]), mac);
        routes.DnetAdd(snet, DecodeNet(payload[i..]), mac);
      }
    }

    /** The Initialize-Routing-Table branch. */
    method HandleInitTable(snet: Net, mac: Mac, m: Npdu)
      requires Valid() && m.content.Control? && m.content.kind == INIT_RT_TABLE && tx.Length >= 24
      modifies `sent, tx, routes, routes.repr
      ensures Valid() && fresh(routes.repr - old(routes.repr))
      ensures routes.table == Routing.HandleControl(old(routes.table), snet, mac, m).table
      ensures sent == old(sent) + Transmit(Routing.HandleControl(old(routes.table), snet, mac, m).sends)
    {
      var payload := m.content.payload;
      if |payload| > 0 {
        if payload[0] != 0 && |payload| >= 3 {
          LearnInitList(snet, mac, payload);
        }
        SendInitTableAck(snet % 0x100);
      }
    }

    /** `network_control_handler`. */
    method HandleControl(snet: Net, mac: Mac, m: Npdu)
      requires Valid() && snet in PortNets(routes.table) && m.content.Control? && tx.Length >= 24
      requires Fits(Routing.HandleControl(routes.table, snet, mac, m).sends, tx.Length)
      modifies `sent, tx, routes, routes.repr
      ensures Valid() && fresh(routes.repr - old(routes.repr))
      ensures routes.table == Routing.HandleControl(old(routes.table), snet, mac, m).table
      ensures sent == old(sent) + Transmit(Routing.HandleControl(old(routes.table), snet, mac, m).sends)
    {
      var kind, payload := m.content.kind, m.content.payload;
      if kind == WHO_IS_ROUTER {
        HandleWhoIs(snet, payload);
      } else if kind == I_AM_ROUTER {
        LearnList(snet, mac, payload);
      } else if kind == INIT_RT_TABLE {
        HandleInitTable(snet, mac, m);
      } else if kind !in {2, 3, 4, 5, 7, 8, 9} {
        SendReject(snet, mac, m);
      }
    }

    /** Encodes a relayed message into the transmit buffer, the APDU behind the header. */
    method PutMessage(m: Npdu) returns (len: nat)
      requires m.content.Apdu? && |Encode(m)| <= tx.Length
      modifies tx
      ensures len == |Encode(m)| && tx[..len] == Encode(m)
    {
      len := EncodePdu(tx, m);
      var apdu := m.content.apdu;
      ghost var header := tx[..len];
      for i := 0 to |apdu|
        invariant len == |header| + i && tx[..len] == header + apdu[..i]
      {
        assert apdu[..i + 1] == apdu[..i] + [apdu[i]];
        len := PutOctet(tx, len, apdu[i]);
      }
      assert apdu[..|apdu|] == apdu;
    }

    /** Sends what is in the transmit buffer on every port but the one it came from. */
    method SendToOthers(snet: Net, len: nat, ghost m: Npdu)
      requires Valid() && len <= tx.Length && tx[..len] == Encode(m)
      modifies `sent
      ensures Valid() && sent == old(sent) + Transmit(SendAll(Others(PortNets(routes.table), snet), [], m))
    {
      ghost var nets := PortNets(routes.table);
      var port := routes.head;
      ghost var i := 0;
      while port != null
        invariant Valid() && nets == PortNets(routes.table) && 0 <= i <= |nets| && port == NodeAt(routes.ports, i)
        invariant sent == old(sent) + Transmit(SendAll(Others(nets[..i], snet), [], m))
        decreases |nets| - i
      {
        assert routes.PortOk(i);
        SendAllStep(nets, snet, m, i);
        if port.net != snet {
          DatalinkSend(port.net, [], len, m);
        }
        port := port.next;
        i := i + 1;
      }
      assert nets[..|nets|] == nets;
    }

    /** `routed_src_address`, as far as the table is concerned. */
    method LearnSource(snet: Net, mac: Mac, m: Npdu)
      requires Valid() && snet in PortNets(routes.table)
      modifies routes, routes.repr
      ensures Valid() && fresh(routes.repr - old(routes.repr))
      ensures routes.table == Routing.LearnSource(old(routes.table), snet, mac, m)
    {
      var found := routes.PortFind(snet);
      DnetAddKeepsPorts(routes.table, snet, m.snet, mac);
      assert found by {
        var i :| 0 <= i < |PortNets(routes.table)| && PortNets(routes.table)[i] == snet;
        assert routes.table[i].net == snet;
      }
      if found && m.snet != 0 {
        routes.DnetAdd(snet, m.snet, mac);
      }
    }

    /** Relays to one station: the source is learned, the hop count lowered, the header rewritten. */
    method Forward(net: Net, to: Mac, snet: Net, mac: Mac, m: Npdu, dnet: Net, dadr: Mac)
      requires Valid() && snet in PortNets(routes.table) && net in PortNets(routes.table) && m.content.Apdu?
      requires |Encode(Relayed(snet, mac, m, dnet, dadr))| <= tx.Length
      modifies `sent, tx, routes, routes.repr
      ensures Valid() && fresh(routes.repr - old(routes.repr))
      ensures routes.table == Routing.LearnSource(old(routes.table), snet, mac, m)
      ensures sent == old(sent) + Transmit([Send(net, to, Relayed(snet, mac, m, dnet, dadr))])
    {
      LearnSource(snet, mac, m);
      var len := PutMessage(Relayed(snet, mac, m, dnet, dadr));
      assert net != 0;
      DatalinkSend(net, to, len, Relayed(snet, mac, m, dnet, dadr));
    }

    /** Relays by local broadcast on every port but the one the message arrived on. */
    method Flood(snet: Net, mac: Mac, m: Npdu, dadr: Mac)
      requires Valid() && snet in PortNets(routes.table) && m.content.Apdu?
      requires |Encode(Relayed(snet, mac, m, m.dnet, dadr))| <= tx.Length
      modifies `sent, tx, routes, routes.repr
      ensures Valid() && fresh(routes.repr - old(routes.repr))
      ensures routes.table == Routing.LearnSource(old(routes.table), snet, mac, m)
      ensures sent == old(sent) + Transmit(SendAll(Others(PortNets(old(routes.table)), snet), [],
                                                  Relayed(snet, mac, m, m.dnet, dadr)))
    {
      LearnSource(snet, mac, m);
      var len := PutMessage(Relayed(snet, mac, m, m.dnet, dadr));
      SendToOthers(snet, len, Relayed(snet, mac, m, m.dnet, dadr));
    }

    /** `routed_apdu_handler`. */
    method RouteApdu(snet: Net, mac: Mac, m: Npdu)
      requires Valid() && snet in PortNets(routes.table) && m.content.Apdu? && tx.Length >= 24
      requires Fits(Routing.RouteApdu(routes.table, snet, mac, m).sends, tx.Length)
      modifies `sent, tx, routes, routes.repr
      ensures Valid() && fresh(routes.repr - old(routes.repr))
      ensures routes.table == Routing.RouteApdu(old(routes.table), snet, mac, m).table
      ensures sent == old(sent) + Transmit(Routing.RouteApdu(old(routes.table), snet, mac, m).sends)
    {
      if m.dnet == BROADCAST {
        RouteBroadcast(snet, mac, m);
      } else {
        RouteDirected(snet, mac, m);
      }
    }

    /** Any other destination is looked up; network 0, unless it was learned, is nowhere. */
    method RouteDirected(snet: Net, mac: Mac, m: Npdu)
      requires Valid() && snet in PortNets(routes.table) && m.content.Apdu? && m.dnet != BROADCAST && tx.Length >= 24
      requires Fits(Routing.RouteApdu(routes.table, snet, mac, m).sends, tx.Length)
      modifies `sent, tx, routes, routes.repr
      ensures Valid() && fresh(routes.repr - old(routes.repr))
      ensures routes.table == Routing.RouteApdu(old(routes.table), snet, mac, m).table
      ensures sent == old(sent) + Transmit(Routing.RouteApdu(old(routes.table), snet, mac, m).sends)
    {
      var known, port, next := LookUp(m.dnet);
      if known {
        RouteKnown(port, next, snet, mac, m);
      } else if m.dnet != 0 {
        RouteUnknown(snet, mac, m);
      }
    }

    /** What `dnet_find` gives of a network: whether it is known, the network of its port, and the next router
        unless the port is on the network itself. */
    method LookUp(net: Net) returns (known: bool, port: Net, next: Mac)
      requires Valid()
      ensures known <==> Known(routes.table, net)
      ensures known ==> Resolve(routes.table, net) == Via(port, if port == net then Direct else Through(next))
    {
      var node, addr := routes.DnetFind(net, []);
      known, port, next := node != null, 0, addr;
      if node != null {
        assert routes.PortOk(Find(routes.table, net));
        port := node.net;
      }
    }

    /** A global broadcast goes on, by local broadcast, from every other port. */
    method RouteBroadcast(snet: Net, mac: Mac, m: Npdu)
      requires Valid() && snet in PortNets(routes.table) && m.content.Apdu? && m.dnet == BROADCAST
      requires Fits(Routing.RouteApdu(routes.table, snet, mac, m).sends, tx.Length)
      modifies `sent, tx, routes, routes.repr
      ensures Valid() && fresh(routes.repr - old(routes.repr))
      ensures routes.table == Routing.RouteApdu(old(routes.table), snet, mac, m).table
      ensures sent == old(sent) + Transmit(Routing.RouteApdu(old(routes.table), snet, mac, m).sends)
    {
      RelayFits(routes.table, bipNet, mstpNet, snet, mac, m, tx.Length);
      Flood(snet, mac, m, []);
    }

    /** A known destination: the last router takes the destination off, others pass the message on. */
    method RouteKnown(port: Net, next: Mac, snet: Net, mac: Mac, m: Npdu)
      requires Valid() && snet in PortNets(routes.table) && m.content.Apdu? && tx.Length >= 24
      requires Fits(Routing.RouteApdu(routes.table, snet, mac, m).sends, tx.Length)
      requires m.dnet != BROADCAST && Known(routes.table, m.dnet)
      requires Resolve(routes.table, m.dnet) == Via(port, if port == m.dnet then Direct else Through(next))
      modifies `sent, tx, routes, routes.repr
      ensures Valid() && fresh(routes.repr - old(routes.repr))
      ensures routes.table == Routing.RouteApdu(old(routes.table), snet, mac, m).table
      ensures sent == old(sent) + Transmit(Routing.RouteApdu(old(routes.table), snet, mac, m).sends)
    {
      RelayFits(routes.table, bipNet, mstpNet, snet, mac, m, tx.Length);
      if port == m.dnet {
        Forward(port, m.dadr, snet, mac, m, 0, []);
      } else {
        Forward(port, next, snet, mac, m, m.dnet, m.dadr);
      }
    }

    /** An unknown destination: flood the message and ask for a router to it. */
    method RouteUnknown(snet: Net, mac: Mac, m: Npdu)
      requires Valid() && snet in PortNets(routes.table) && m.content.Apdu? && tx.Length >= 24
      requires Fits(Routing.RouteApdu(routes.table, snet, mac, m).sends, tx.Length)
      requires m.dnet != 0 && m.dnet != BROADCAST && !Known(routes.table, m.dnet)
      modifies `sent, tx, routes, routes.repr
      ensures Valid() && fresh(routes.repr - old(routes.repr))
      ensures routes.table == Routing.RouteApdu(old(routes.table), snet, mac, m).table
      ensures sent == old(sent) + Transmit(Routing.RouteApdu(old(routes.table), snet, mac, m).sends)
    {
      RelayFits(routes.table, bipNet, mstpNet, snet, mac, m, tx.Length);
      ghost var t := routes.table;
      ghost var copies := SendAll(Others(PortNets(t), snet), [], Relayed(snet, mac, m, m.dnet, m.dadr));
      TransmitConcat(copies, WhoIsRouter(t, 0, m.dnet));
      Flood(snet, mac, m, m.dadr);
      SendWhoIsRouter(0, m.dnet);
    }

    /** `my_routing_npdu_handler`, for a PDU from station `mac` received on the port of network `snet`. */
    method Receive(snet: Net, mac: Mac, pdu: seq<Octet>)
      requires Valid() && (snet == bipNet || snet == mstpNet) && tx.Length >= 24
      requires Fits(HandlePdu(routes.table, snet, mac, pdu).sends, tx.Length)
      modifies this, tx, routes, routes.repr
      ensures Valid() && fresh(routes.repr - old(routes.repr))
      ensures routes.table == HandlePdu(old(routes.table), snet, mac, pdu).table
      ensures sent == old(sent) + Transmit(HandlePdu(old(routes.table), snet, mac, pdu).sends)
      ensures handed == old(handed) + HandOverPdu(mac, pdu)
    {
      if pdu == [] || pdu[0] != 1 {
        return;
      }
      match Decode(pdu) {
        case Discarded =>
        case Decoded(m) =>
          if m.content.Control? {
            if m.dnet == 0 || m.dnet == BROADCAST {
              HandleControl(snet, mac, m);
            }
          } else if m.dnet == 0 || m.dnet == BROADCAST || m.hop > 1 {
            if !(m.dnet == BROADCAST && Confirmed(m.content.apdu)) {
              RouteApdu(snet, mac, m);
              if m.dnet == 0 || m.dnet == BROADCAST {
                handed := handed + [Handed(mac, m.snet, m.sadr, m.content.apdu)];
              }
            }
          }
      }
    }
  }

  function IAmMessage(t: Table, snet: Net, net: Net): Npdu {
    ControlMessage(I_AM_ROUTER, if net != 0 then EncodeNet(net) else EncodeNets(Announcement(t, snet)))
  }

  lemma ListStep(t: Table, s: Net, i: nat, listed: seq<Net>, part: seq<Net>)
    requires i < |t| && listed + Announcement(t[i..], s) == Announcement(t, s)
    requires part == if t[i].net != s then t[i].Nets() else []
    ensures listed + part + Announcement(t[i + 1..], s) == Announcement(t, s)
    ensures |listed + part| <= |Announcement(t, s)|
  {
    AnnouncementHead(t[i..], s);
    assert t[i..][1..] == t[i + 1..];
    Associate(listed, part, Announcement(t[i + 1..], s));
  }

  lemma AnnouncementHead(t: Table, s: Net)
    requires t != []
    ensures Announcement(t, s) == (if t[0].net != s then t[0].Nets() else []) + Announcement(t[1..], s)
  {
  }

  lemma IAmFits(t: Table, snet: Net, net: Net, room: nat)
    requires snet in PortNets(t) && snet != 0 && Fits(IAmRouter(t, snet, net), room)
    ensures |Encode(IAmMessage(t, snet, net))| <= room
  {
    assert Send(snet, [], IAmMessage(t, snet, net)) in IAmRouter(t, snet, net);
  }

  lemma {:induction false} OthersConcat(a: seq<Net>, b: seq<Net>, snet: Net)
    ensures Others(a + b, snet) == Others(a, snet) + Others(b, snet)
  {
    if a == [] {
      assert a + b == b;
    } else {
      assert (a + b)[1..] == a[1..] + b;
      OthersConcat(a[1..], b, snet);
    }
  }

  lemma OthersStep(nets: seq<Net>, snet: Net, i: nat)
    requires i < |nets|
    ensures Others(nets[..i + 1], snet) == Others(nets[..i], snet) + if nets[i] != snet then [nets[i]] else []
  {
    assert nets[..i + 1] == nets[..i] + [nets[i]] && [nets[i]][1..] == [];
    OthersConcat(nets[..i], [nets[i]], snet);
  }

  lemma {:induction false} WhoIsOnEachConcat(t: Table, a: seq<Net>, b: seq<Net>, dnet: Net)
    ensures WhoIsOnEach(t, a + b, dnet) == WhoIsOnEach(t, a, dnet) + WhoIsOnEach(t, b, dnet)
    ensures |b| == 1 ==> WhoIsOnEach(t, b, dnet) == WhoIsRouter(t, b[0], dnet)
  {
    if a == [] {
      assert a + b == b;
    } else {
      assert (a + b)[1..] == a[1..] + b;
      WhoIsOnEachConcat(t, a[1..], b, dnet);
    }
  }

  /** What has been sent once port `i` was asked too. */
  lemma AskStep(first: seq<Pdu>, t: Table, nets: seq<Net>, snet: Net, dnet: Net, i: nat) returns (sent: seq<Pdu>)
    requires i < |nets|
    ensures sent == first + Transmit(WhoIsOnEach(t, Others(nets[..i + 1], snet), dnet))
    ensures sent == first + Transmit(WhoIsOnEach(t, Others(nets[..i], snet), dnet))
                    + if nets[i] != snet then Transmit(WhoIsRouter(t, nets[i], dnet)) else []
  {
    AskMore(t, nets, snet, dnet, i);
    sent := first + Transmit(WhoIsOnEach(t, Others(nets[..i + 1], snet), dnet));
    Associate(first, Transmit(WhoIsOnEach(t, Others(nets[..i], snet), dnet)),
                if nets[i] != snet then Transmit(WhoIsRouter(t, nets[i], dnet)) else []);
  }

  lemma AskMore(t: Table, nets: seq<Net>, snet: Net, dnet: Net, i: nat)
    requires i < |nets|
    ensures Transmit(WhoIsOnEach(t, Others(nets[..i + 1], snet), dnet))
            == Transmit(WhoIsOnEach(t, Others(nets[..i], snet), dnet))
               + if nets[i] != snet then Transmit(WhoIsRouter(t, nets[i], dnet)) else []
  {
    OthersStep(nets, snet, i);
    var before := Others(nets[..i], snet);
    if nets[i] != snet {
      WhoIsOnEachConcat(t, before, [nets[i]], dnet);
      TransmitConcat(WhoIsOnEach(t, before, dnet), WhoIsRouter(t, nets[i], dnet));
    } else {
      assert before + [] == before;
    }
  }

  lemma DnetAddTwice(t: Table, snet: Net, net: Net, mac: Mac)
    ensures DnetAdd(DnetAdd(t, snet, net, mac), snet, net, mac) == DnetAdd(t, snet, net, mac)
  {
    if !Known(t, net) && Known(t, snet) {
      DnetAddFind(t, snet, net, mac, net);
    }
  }

  lemma SendAllStep(nets: seq<Net>, snet: Net, m: Npdu, i: nat)
    requires i < |nets|
    ensures Transmit(SendAll(Others(nets[..i + 1], snet), [], m))
            == Transmit(SendAll(Others(nets[..i], snet), [], m))
               + if nets[i] != snet then [Pdu(nets[i], [], Encode(m))] else []
  {
    OthersStep(nets, snet, i);
    var before := Others(nets[..i], snet);
    if nets[i] != snet {
      assert SendAll(before + [nets[i]], [], m) == SendAll(before, [], m) + [Send(nets[i], [], m)];
      TransmitConcat(SendAll(before, [], m), [Send(nets[i], [], m)]);
      assert Transmit([Send(nets[i], [], m)]) == [Pdu(nets[i], [], Encode(m))];
    } else {
      assert before + [] == before;
    }
  }

  lemma OtherPortExists(a: Net, b: Net, snet: Net)
    requires a != b
    ensures Others([a, b], snet) != []
  {
    assert a in [a, b] && b in [a, b];
  }

  lemma RelayFits(t: Table, a: Net, b: Net, snet: Net, mac: Mac, m: Npdu, room: nat)
    requires PortNets(t) == [a, b] && a != b && Fits(Routing.RouteApdu(t, snet, mac, m).sends, room)
    ensures m.dnet == BROADCAST ==> |Encode(Relayed(snet, mac, m, BROADCAST, []))| <= room
    ensures m.dnet != BROADCAST && Known(t, m.dnet) ==>
              if Resolve(t, m.dnet).hop.Direct? then |Encode(Relayed(snet, mac, m, 0, []))| <= room
              else |Encode(Relayed(snet, mac, m, m.dnet, m.dadr))| <= room
    ensures m.dnet != BROADCAST && m.dnet != 0 && !Known(t, m.dnet) ==>
              |Encode(Relayed(snet, mac, m, m.dnet, m.dadr))| <= room
    ensures Known(t, m.dnet) ==> Resolve(t, m.dnet).port in PortNets(t)
  {
    OtherPortExists(a, b, snet);
    var sends := Routing.RouteApdu(t, snet, mac, m).sends;
    if sends != [] {
      assert sends[0] in sends;
    }
    if Known(t, m.dnet) {
      assert PortNets(t)[Find(t, m.dnet)] == Resolve(t, m.dnet).port;
    }
  }

  // ----- what is sent is what the next router decodes -----

  lemma {:induction false} WhoIsCanonical(t: Table, nets: seq<Net>, dnet: Net)
    ensures forall s :: s in WhoIsOnEach(t, nets, dnet) ==> s.npdu.Canonical()
  {
    if nets != [] { WhoIsCanonical(t, nets[1..], dnet); }
  }

  lemma ControlSendsCanonical(t: Table, snet: Net, mac: Mac, m: Npdu)
    requires m.content.Control?
    ensures forall s :: s in Routing.HandleControl(t, snet, mac, m).sends ==> s.npdu.Canonical()
  {
    if m.content.kind == WHO_IS_ROUTER && |m.content.payload| >= 2 {
      WhoIsCanonical(t, Others(PortNets(t), snet), DecodeNet(m.content.payload));
    }
  }

  lemma RelayedCanonical(snet: Net, mac: Mac, m: Npdu, dnet: Net, dadr: Mac)
    requires m.content.Apdu?
    ensures Relayed(snet, mac, m, dnet, dadr).Canonical()
  {
  }

  lemma BroadcastSendsCanonical(t: Table, snet: Net, mac: Mac, m: Npdu)
    requires m.content.Apdu? && m.dnet == BROADCAST
    ensures forall s :: s in Routing.RouteApdu(t, snet, mac, m).sends ==> s.npdu.Canonical()
  {
    RelayedCanonical(snet, mac, m, BROADCAST, []);
  }

  lemma KnownSendsCanonical(t: Table, snet: Net, mac: Mac, m: Npdu)
    requires m.content.Apdu? && m.dnet != BROADCAST && Known(t, m.dnet)
    ensures forall s :: s in Routing.RouteApdu(t, snet, mac, m).sends ==> s.npdu.Canonical()
  {
    RelayedCanonical(snet, mac, m, 0, []);
    RelayedCanonical(snet, mac, m, m.dnet, m.dadr);
  }

  lemma UnknownSendsCanonical(t: Table, snet: Net, mac: Mac, m: Npdu)
    requires m.content.Apdu? && m.dnet != BROADCAST && !Known(t, m.dnet)
    ensures forall s :: s in Routing.RouteApdu(t, snet, mac, m).sends ==> s.npdu.Canonical()
  {
    RelayedCanonical(snet, mac, m, m.dnet, m.dadr);
    WhoIsCanonical(t, [0], m.dnet);
    assert WhoIsOnEach(t, [0], m.dnet) == WhoIsRouter(t, 0, m.dnet) + [] == WhoIsRouter(t, 0, m.dnet);
  }

  lemma SendsCanonical(t: Table, snet: Net, mac: Mac, m: Npdu, s: Send)
    requires s in Handle(t, snet, mac, m).sends
    ensures s.npdu.Canonical()
  {
    if m.content.Control? {
      ControlSendsCanonical(t, snet, mac, m);
    } else if m.dnet == BROADCAST {
      BroadcastSendsCanonical(t, snet, mac, m);
    } else if Known(t, m.dnet) {
      KnownSendsCanonical(t, snet, mac, m);
    } else {
      UnknownSendsCanonical(t, snet, mac, m);
    }
  }

  /** Every message a router sends, relayed or its own, survives the wire unchanged: the next
      router's decoder returns exactly it. */
  lemma SentIsReceived(t: Table, snet: Net, mac: Mac, m: Npdu, s: Send)
    requires s in Handle(t, snet, mac, m).sends
    ensures Decode(Encode(s.npdu)) == Decoded(s.npdu)
  {
    SendsCanonical(t, snet, mac, m, s);
    WireIdentity(s.npdu);
  }
}
