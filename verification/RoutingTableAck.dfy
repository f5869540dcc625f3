/** The Initialize-Routing-Table-Ack: printed by a router, parsed by `initrouter`. */
module RoutingTableAck {
  import opened Octets
  import opened NpduCodec
  import opened RoutingTable
  import opened Routing
  import opened RouterLaws

  datatype Shown<T> = Nothing | Shown(value: T)

  /** One printed entry; a field cut off by the end of the message is not printed. */
  datatype Entry = Entry(dnet: Shown<Net>, portId: Shown<Octet>)

  /** What the parser prints: the port count and the entries. A port information field that is
      not empty leaves it in a loop whose counter never changes. */
  datatype Report = Printed(ports: nat, entries: seq<Entry>) | NeverEnds(ports: nat, entries: seq<Entry>)

  function ParseEntries(ports: nat, done: seq<Entry>, s: seq<Octet>): Report
    decreases |s|
  {
    if s == [] then Printed(ports, done)
    else
      var afterNet := if |s| >= 2 then s[2..] else s;
      var afterId := if afterNet != [] then afterNet[1..] else [];
      var entry := Entry(if |s| >= 2 then Shown(DecodeNet(s)) else Nothing,
                         if afterNet != [] then Shown(afterNet[0]) else Nothing);
      if afterId == [] then Printed(ports, done + [entry])
      else if afterId[0] != 0 then NeverEnds(ports, done + [entry])
      else ParseEntries(ports, done + [entry], afterId[1..])
  }

  function Parse(s: seq<Octet>): Report {
    if s == [] then Printed(0, []) else ParseEntries(s[0], [], s[1..])
  }

  /** The parser loop of `My_Router_Handler`. */
  method ParseAck(npdu: seq<Octet>) returns (report: Report)
    ensures report == Parse(npdu)
  {
    var offset: nat, length: nat, ports: nat := 0, |npdu|, 0;
    var entries: seq<Entry> := [];
    if length >= 1 {
      ports := npdu[offset];
      offset, length := offset + 1, length - 1;
    }
    while length > 0
      invariant offset + length == |npdu|
      invariant ParseEntries(ports, entries, npdu[offset..]) == Parse(npdu)
      decreases length
    {
      ghost var s := npdu[offset..];
      var entry := Entry(Nothing, Nothing);
      var infoLength: Octet := 0;
      if length >= 2 {
        entry := entry.(dnet := Shown(DecodeNet(npdu[offset..])));
        offset, length := offset + 2, length - 2;
        assert npdu[offset..] == s[2..];
      }
      ghost var afterNet := npdu[offset..];
      if length >= 1 {
        entry := entry.(portId := Shown(npdu[offset]));
        offset, length := offset + 1, length - 1;
        assert npdu[offset..] == afterNet[1..];
      }
      ghost var afterId := npdu[offset..];
      if length >= 1 {
        infoLength := npdu[offset];
        offset, length := offset + 1, length - 1;
        assert npdu[offset..] == afterId[1..];
      }
      entries := entries + [entry];
      if infoLength != 0 {
        return NeverEnds(ports, entries);
      }
    }
    return Printed(ports, entries);
  }

  // ----- the round trip -----

  /** The entries a table of these ports stands for: port IDs count up from `id`, as octets. */
  function EntriesOf(nets: seq<Net>, id: Octet): (es: seq<Entry>)
    ensures |es| == |nets|
  {
    if nets == [] then [] else [Entry(Shown(nets[0]), Shown(id))] + EntriesOf(nets[1..], (id + 1) % 0x100)
  }

  lemma EntryParsed(ports: nat, done: seq<Entry>, net: Net, id: Octet, rest: seq<Octet>)
    ensures ParseEntries(ports, done, EncodeNet(net) + [id, 0] + rest)
            == ParseEntries(ports, done + [Entry(Shown(net), Shown(id))], rest)
  {
    var s := EncodeNet(net) + [id, 0] + rest;
    assert s == EncodeNet(net) + ([id, 0] + rest);
    NetRoundTrip(net, [id, 0] + rest);
    assert s[2..] == [id, 0] + rest && s[2..][1..] == [0] + rest && s[2..][1..][1..] == rest;
  }

  lemma {:induction false} EntriesRoundTrip(ports: nat, done: seq<Entry>, nets: seq<Net>, id: Octet)
    ensures ParseEntries(ports, done, AckEntries(nets, id)) == Printed(ports, done + EntriesOf(nets, id))
    decreases |nets|
  {
    if nets == [] {
      assert done + [] == done;
    } else {
      var next := (id + 1) % 0x100;
      var entry := Entry(Shown(nets[0]), Shown(id));
      EntryParsed(ports, done, nets[0], id, AckEntries(nets[1..], next));
      EntriesRoundTrip(ports, done + [entry], nets[1..], next);
      Associate(done, [entry], EntriesOf(nets[1..], next));
    }
  }

  /** A running port ID, `i` entries behind `id`. */
  function IdAt(id: Octet, i: nat): Octet {
    (id + i) % 0x100
  }

  lemma IdFurther(id: Octet, i: nat)
    ensures IdAt(IdAt(id, 1), i) == IdAt(id, i + 1)
  {
  }

  lemma {:induction false} EntriesAre(nets: seq<Net>, id: Octet, i: nat)
    requires i < |nets|
    ensures EntriesOf(nets, id)[i] == Entry(Shown(nets[i]), Shown(IdAt(id, i)))
    decreases i
  {
    if i > 0 {
      EntriesAre(nets[1..], IdAt(id, 1), i - 1);
      IdFurther(id, i - 1);
    }
  }

  /** Whatever the router prints, `initrouter` parses to the end: the port count, and one entry per
      port, in table order, with port IDs counting up from 1, all modulo 256. */
  lemma AckRoundTrip(nets: seq<Net>)
    ensures Parse(AckPayload(nets)) == Printed(|nets| % 0x100, EntriesOf(nets, 1))
    ensures forall i :: 0 <= i < |nets| ==> EntriesOf(nets, 1)[i] == Entry(Shown(nets[i]), Shown(IdAt(1, i)))
  {
    assert AckPayload(nets)[1..] == AckEntries(nets, 1);
    EntriesRoundTrip(|nets| % 0x100, [], nets, 1);
    assert [] + EntriesOf(nets, 1) == EntriesOf(nets, 1);
    forall i | 0 <= i < |nets| ensures EntriesOf(nets, 1)[i] == Entry(Shown(nets[i]), Shown(IdAt(1, i))) {
      EntriesAre(nets, 1, i);
    }
  }

  /** The reported count is the number of entries if and only if there are fewer than 256 ports. */
  lemma CountRight(nets: seq<Net>)
    ensures Parse(AckPayload(nets)).ports == |Parse(AckPayload(nets)).entries| <==> |nets| < 0x100
  {
    AckRoundTrip(nets);
  }

  /** A router asked for its table answers on its arrival port, if that has an eight-bit number, with a message that
      `initrouter` parses to the end as the ports of the router; and so it does when it is given a table. */
  lemma TableIsReported(t: Table, snet: Net, mac: Mac, m: Npdu) returns (payload: seq<Octet>)
    requires Sound(t, snet) && snet < 0x100 && (m.dnet == 0 || m.dnet == BROADCAST)
    requires m.content.Control? && m.content.kind == INIT_RT_TABLE && m.content.payload != []
    ensures Handle(t, snet, mac, m).sends
            == [Send(snet, [], Npdu(false, 0, 0xFFFF, [], 0, [], 255, Control(7, 0, payload)))]
    ensures Parse(payload) == Printed(|t| % 0x100, EntriesOf(PortNets(t), 1))
  {
    var given := m.content.payload;
    payload := AckPayload(PortNets(t));
    AckRoundTrip(PortNets(t));
    if given[0] != 0 && |given| >= 3 { DnetAddKeepsPorts(t, snet, DecodeNet(given[1..]), mac); }
  }

  /** Of an entry that is cut off by the end of the message what is there is shown, the number of the network only
      whole; and port information that is not empty keeps the parser in its loop. */
  lemma EntryCutOff(ports: nat, done: seq<Entry>, net: Net, id: Octet, size: Octet, rest: seq<Octet>)
    ensures ParseEntries(ports, done, [id]) == Printed(ports, done + [Entry(Nothing, Shown(id))])
    ensures ParseEntries(ports, done, EncodeNet(net)) == Printed(ports, done + [Entry(Shown(net), Nothing)])
    ensures ParseEntries(ports, done, EncodeNet(net) + [id]) == Printed(ports, done + [Entry(Shown(net), Shown(id))])
    ensures size != 0 ==> ParseEntries(ports, done, EncodeNet(net) + ([id, size] + rest))
                          == NeverEnds(ports, done + [Entry(Shown(net), Shown(id))])
  {
    NetRoundTrip(net, []);
    assert EncodeNet(net) + [] == EncodeNet(net);
    NetRoundTrip(net, [id]);
    NetRoundTrip(net, [id, size] + rest);
    assert ([id, size] + rest)[1..] == [size] + rest;
  }
}
