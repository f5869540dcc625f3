/** The router's table as a value: directly connected ports, each with the networks
    learned behind it, and the partial map the table stands for. */
module RoutingTable {
  import opened Octets

  /** A learned network and the MAC address of the next router towards it. */
  datatype Route = Route(net: Net, mac: Mac)

  datatype Port = Port(net: Net, mac: Mac, dnets: seq<Route>) {
    /** Every network listed under this port, its own first. */
    function Nets(): seq<Net> {
      [net] + RouteNets(dnets)
    }
  }

  type Table = seq<Port>

  function RouteNets(ds: seq<Route>): (ns: seq<Net>)
    ensures |ns| == |ds| && forall j :: 0 <= j < |ds| ==> ns[j] == ds[j].net
  {
    seq(|ds|, j requires 0 <= j < |ds| => ds[j].net)
  }

  /** `dnet_find`: the first port that lists the network, or `|t|`. */
  function Find(t: Table, net: Net): (i: nat)
    ensures i <= |t|
    ensures i < |t| ==> net in t[i].Nets()
    ensures forall j :: 0 <= j < i ==> net !in t[j].Nets()
  {
    if t == [] || net in t[0].Nets() then 0 else 1 + Find(t[1..], net)
  }

  predicate Known(t: Table, net: Net) {
    Find(t, net) < |t|
  }

  /** `port_find`: the network is directly connected. */
  predicate HasPort(t: Table, net: Net) {
    exists i :: 0 <= i < |t| && t[i].net == net
  }

  /** `port_add`. */
  function PortAdd(t: Table, net: Net, mac: Mac): Table {
    if Known(t, net) then t else t + [Port(net, mac, [])]
  }

  /** `dnet_add`. */
  function DnetAdd(t: Table, snet: Net, net: Net, mac: Mac): Table {
    if Known(t, net) || !Known(t, snet) then t
    else
      var i := Find(t, snet);
      t[i := t[i].(dnets := t[i].dnets + [Route(net, mac)])]
  }

  // ----- what the table means -----

  /** How to reach a network: the port's network, and the next router unless it is directly connected. */
  datatype NextHop = Direct | Through(mac: Mac)
  datatype Via = Via(port: Net, hop: NextHop)

  function RouteMac(ds: seq<Route>, net: Net): Mac
    requires net in RouteNets(ds)
  {
    assert ds != [];
    if ds[0].net == net then ds[0].mac
    else
      assert forall j :: 0 <= j < |ds| - 1 ==> RouteNets(ds[1..])[j] == RouteNets(ds)[j + 1];
      RouteMac(ds[1..], net)
  }

  function Resolve(t: Table, net: Net): Via
    requires Known(t, net)
  {
    var p := t[Find(t, net)];
    Via(p.net, if p.net == net then Direct else Through(RouteMac(p.dnets, net)))
  }

  type Routes = map<Net, Via>

  ghost function AsMap(t: Table): Routes {
    map net: Net | Known(t, net) :: Resolve(t, net)
  }

  // ----- the reference: a partial map in which the first entry learned wins -----

  datatype Op = AddPort(net: Net, mac: Mac) | AddRoute(snet: Net, net: Net, mac: Mac)

  function Apply(t: Table, op: Op): Table {
    match op
    case AddPort(net, mac) => PortAdd(t, net, mac)
    case AddRoute(snet, net, mac) => DnetAdd(t, snet, net, mac)
  }

  function RefApply(m: Routes, op: Op): Routes {
    match op
    case AddPort(net, _) => if net in m then m else m[net := Via(net, Direct)]
    case AddRoute(snet, net, mac) =>
      if net in m || snet !in m then m else m[net := Via(m[snet].port, Through(mac))]
  }

  function Run(t: Table, ops: seq<Op>): Table
    decreases |ops|
  {
    if ops == [] then t else Run(Apply(t, ops[0]), ops[1..])
  }

  function RefRun(m: Routes, ops: seq<Op>): Routes
    decreases |ops|
  {
    if ops == [] then m else RefRun(RefApply(m, ops[0]), ops[1..])
  }

  // ----- finding in an extended table -----

  lemma FindIs(t: Table, net: Net, i: nat)
    requires i <= |t|
    requires i < |t| ==> net in t[i].Nets()
    requires forall j :: 0 <= j < i ==> net !in t[j].Nets()
    ensures Find(t, net) == i
  {
  }

  lemma PortAddFind(t: Table, added: Net, mac: Mac, net: Net)
    requires !Known(t, added)
    ensures Known(PortAdd(t, added, mac), net) <==> Known(t, net) || net == added
    ensures Known(PortAdd(t, added, mac), net) ==>
              Resolve(PortAdd(t, added, mac), net) == if net == added then Via(added, Direct) else Resolve(t, net)
  {
    var u := PortAdd(t, added, mac);
    var i := Find(t, net);
    assert u[..|t|] == t;
    assert forall j :: 0 <= j < |t| ==> u[j] == t[j];
    assert u[|t|].Nets() == [added];
    FindIs(u, net, if i < |t| || net == added then i else i + 1);
  }

  lemma NetsSnoc(p: Port, r: Route)
    ensures p.(dnets := p.dnets + [r]).Nets() == p.Nets() + [r.net]
  {
  }

  lemma {:induction false} RouteMacSnoc(ds: seq<Route>, r: Route, net: Net)
    requires net in RouteNets(ds) || net == r.net
    ensures net in RouteNets(ds + [r])
    ensures RouteMac(ds + [r], net) == if net in RouteNets(ds) then RouteMac(ds, net) else r.mac
  {
    assert RouteNets(ds + [r]) == RouteNets(ds) + [r.net];
    if ds != [] && ds[0].net != net {
      assert (ds + [r])[1..] == ds[1..] + [r];
      assert RouteNets(ds) == [ds[0].net] + RouteNets(ds[1..]);
      RouteMacSnoc(ds[1..], r, net);
    }
  }

  /** The rows after a route is added: one network more in one row. */
  lemma DnetAddRows(t: Table, snet: Net, added: Net, mac: Mac)
    requires !Known(t, added) && Known(t, snet)
    ensures var u, i := DnetAdd(t, snet, added, mac), Find(t, snet);
            && |u| == |t| && u[i] == t[i].(dnets := t[i].dnets + [Route(added, mac)])
            && (forall j :: 0 <= j < |t| && j != i ==> u[j] == t[j])
            && (forall j, net :: 0 <= j < |t| ==>
                 (net in u[j].Nets() <==> net in t[j].Nets() || (j == i && net == added)))
  {
    NetsSnoc(t[Find(t, snet)], Route(added, mac));
  }

  lemma AddedFind(t: Table, snet: Net, added: Net, mac: Mac)
    requires !Known(t, added) && Known(t, snet)
    ensures Known(DnetAdd(t, snet, added, mac), added)
    ensures Resolve(DnetAdd(t, snet, added, mac), added) == Via(t[Find(t, snet)].net, Through(mac))
  {
    var i, u := Find(t, snet), DnetAdd(t, snet, added, mac);
    DnetAddRows(t, snet, added, mac);
    assert t[i].net in t[i].Nets() && added !in t[i].Nets();
    FindIs(u, added, i);
    assert RouteNets(t[i].dnets) == t[i].Nets()[1..];
    RouteMacSnoc(t[i].dnets, Route(added, mac), added);
  }

  lemma OtherFind(t: Table, snet: Net, added: Net, mac: Mac, net: Net)
    requires !Known(t, added) && Known(t, snet) && net != added
    ensures Known(DnetAdd(t, snet, added, mac), net) <==> Known(t, net)
    ensures Known(t, net) ==> Resolve(DnetAdd(t, snet, added, mac), net) == Resolve(t, net)
  {
    var i, k, u := Find(t, snet), Find(t, net), DnetAdd(t, snet, added, mac);
    DnetAddRows(t, snet, added, mac);
    FindIs(u, net, k);
    if k == i && t[i].net != net {
      assert RouteNets(t[i].dnets) == t[i].Nets()[1..];
      assert net in RouteNets(t[i].dnets);
      RouteMacSnoc(t[i].dnets, Route(added, mac), net);
    }
  }

  lemma DnetAddFind(t: Table, snet: Net, added: Net, mac: Mac, net: Net)
    requires !Known(t, added) && Known(t, snet)
    ensures Known(DnetAdd(t, snet, added, mac), net) <==> Known(t, net) || net == added
    ensures Known(DnetAdd(t, snet, added, mac), net) ==>
              Resolve(DnetAdd(t, snet, added, mac), net)
              == if net == added then Via(t[Find(t, snet)].net, Through(mac)) else Resolve(t, net)
  {
    if net == added {
      AddedFind(t, snet, added, mac);
    } else {
      OtherFind(t, snet, added, mac, net);
    }
  }

  // ----- the table refines the map -----

  ghost predicate StandsFor(t: Table, m: Routes) {
    forall net: Net :: (net in m <==> Known(t, net)) && (net in m ==> m[net] == Resolve(t, net))
  }

  lemma AsMapIs(t: Table, m: Routes)
    requires StandsFor(t, m)
    ensures AsMap(t) == m
  {
    assert AsMap(t).Keys == m.Keys;
  }

  lemma PortAddRefines(t: Table, added: Net, mac: Mac)
    ensures AsMap(PortAdd(t, added, mac)) == RefApply(AsMap(t), AddPort(added, mac))
  {
    if !Known(t, added) {
      forall net: Net ensures Known(PortAdd(t, added, mac), net) <==> Known(t, net) || net == added
        ensures Known(PortAdd(t, added, mac), net) ==>
                  Resolve(PortAdd(t, added, mac), net) == if net == added then Via(added, Direct) else Resolve(t, net)
      {
        PortAddFind(t, added, mac, net);
      }
      AsMapIs(PortAdd(t, added, mac), AsMap(t)[added := Via(added, Direct)]);
    }
  }

  lemma DnetAddRefines(t: Table, snet: Net, added: Net, mac: Mac)
    ensures AsMap(DnetAdd(t, snet, added, mac)) == RefApply(AsMap(t), AddRoute(snet, added, mac))
  {
    if !Known(t, added) && Known(t, snet) {
      var u := DnetAdd(t, snet, added, mac);
      var via := Via(t[Find(t, snet)].net, Through(mac));
      forall net: Net ensures Known(u, net) <==> Known(t, net) || net == added
        ensures Known(u, net) ==> Resolve(u, net) == if net == added then via else Resolve(t, net)
      {
        DnetAddFind(t, snet, added, mac, net);
      }
      AsMapIs(u, AsMap(t)[added := via]);
    }
  }

  /** One `port_add` or `dnet_add` is the corresponding map operation. */
  lemma ApplyRefines(t: Table, op: Op)
    ensures AsMap(Apply(t, op)) == RefApply(AsMap(t), op)
  {
    match op
    case AddPort(added, mac) => PortAddRefines(t, added, mac);
    case AddRoute(snet, added, mac) => DnetAddRefines(t, snet, added, mac);
  }

  /** Any sequence of additions computes the map the reference computes. */
  lemma {:induction false} RunRefinesMap(t: Table, ops: seq<Op>)
    ensures AsMap(Run(t, ops)) == RefRun(AsMap(t), ops)
    decreases |ops|
  {
    if ops != [] {
      ApplyRefines(t, ops[0]);
      RunRefinesMap(Apply(t, ops[0]), ops[1..]);
    }
  }

  lemma {:induction false} RefFirstWins(m: Routes, ops: seq<Op>)
    ensures forall net :: net in m ==> net in RefRun(m, ops) && RefRun(m, ops)[net] == m[net]
    decreases |ops|
  {
    if ops != [] {
      RefFirstWins(RefApply(m, ops[0]), ops[1..]);
    }
  }

  /** First learned wins: whatever is added later, an entry once present never changes. */
  lemma FirstLearnedWins(t: Table, ops: seq<Op>, net: Net)
    requires Known(t, net)
    ensures Known(Run(t, ops), net) && Resolve(Run(t, ops), net) == Resolve(t, net)
  {
    RunRefinesMap(t, ops);
    RefFirstWins(AsMap(t), ops);
    assert net in AsMap(t) && AsMap(t)[net] == Resolve(t, net);
    assert net in AsMap(Run(t, ops));
  }

  // ----- no network is listed twice -----

  predicate NoDup<T(==)>(s: seq<T>) {
    forall i, j :: 0 <= i < j < |s| ==> s[i] != s[j]
  }

  /** All the networks of the table, port by port. */
  function AllNets(t: Table): seq<Net> {
    if t == [] then [] else t[0].Nets() + AllNets(t[1..])
  }

  predicate Distinct(t: Table) {
    && (forall i :: 0 <= i < |t| ==> NoDup(t[i].Nets()))
    && (forall i, j :: 0 <= i < j < |t| ==> Disjoint(t[i].Nets(), t[j].Nets()))
  }

  predicate Disjoint(a: seq<Net>, b: seq<Net>) {
    forall x :: x in a ==> x !in b
  }

  lemma ApplyKeepsDistinct(t: Table, op: Op)
    requires Distinct(t)
    ensures Distinct(Apply(t, op))
  {
    var u := Apply(t, op);
    match op
    case AddPort(added, mac) =>
      if !Known(t, added) {
        assert u[|t|].Nets() == [added];
        assert forall j :: 0 <= j < |t| ==> added !in t[j].Nets();
      }
    case AddRoute(snet, added, mac) =>
      if !Known(t, added) && Known(t, snet) {
        NetsSnoc(t[Find(t, snet)], Route(added, mac));
        assert forall j :: 0 <= j < |t| ==> added !in t[j].Nets();
      }
  }

  lemma {:induction false} RunKeepsDistinct(t: Table, ops: seq<Op>)
    requires Distinct(t)
    ensures Distinct(Run(t, ops))
    decreases |ops|
  {
    if ops != [] {
      ApplyKeepsDistinct(t, ops[0]);
      RunKeepsDistinct(Apply(t, ops[0]), ops[1..]);
    }
  }

  lemma NoDupConcat<T>(a: seq<T>, b: seq<T>)
    requires NoDup(a) && NoDup(b) && forall x :: x in a ==> x !in b
    ensures NoDup(a + b)
  {
    forall i, j | 0 <= i < j < |a + b|
      ensures (a + b)[i] != (a + b)[j]
    {
      if i < |a| <= j { assert a[i] in a && b[j - |a|] in b; }
    }
  }

  lemma {:induction false} InAllNets(t: Table, net: Net)
    ensures net in AllNets(t) <==> exists i :: 0 <= i < |t| && net in t[i].Nets()
  {
    if t != [] {
      InAllNets(t[1..], net);
      if net in t[0].Nets() {
      } else if i :| 0 <= i < |t| && net in t[i].Nets() {
        assert t[1..][i - 1] == t[i];
      }
    }
  }

  lemma {:induction false} DistinctIsNoDup(t: Table)
    requires Distinct(t)
    ensures NoDup(AllNets(t))
  {
    if t != [] {
      DistinctIsNoDup(t[1..]);
      forall x | x in t[0].Nets() ensures x !in AllNets(t[1..]) {
        InAllNets(t[1..], x);
        forall i | 0 <= i < |t[1..]| ensures x !in t[1..][i].Nets() {
          assert Disjoint(t[0].Nets(), t[i + 1].Nets());
        }
      }
      NoDupConcat(t[0].Nets(), AllNets(t[1..]));
    }
  }

  /** After any run from the empty table, no network number is listed twice anywhere. */
  lemma NetsNeverRepeat(ops: seq<Op>)
    ensures NoDup(AllNets(Run([], ops)))
  {
    RunKeepsDistinct([], ops);
    DistinctIsNoDup(Run([], ops));
  }

  // ----- announcements -----

  /** The list `send_i_am_router_to_network(s, 0)` prints: split horizon. */
  function Announcement(t: Table, s: Net): seq<Net> {
    if t == [] then []
    else (if t[0].net != s then t[0].Nets() else []) + Announcement(t[1..], s)
  }

  lemma {:induction false} InAnnouncement(t: Table, s: Net, net: Net)
    ensures net in Announcement(t, s) <==> exists i :: 0 <= i < |t| && t[i].net != s && net in t[i].Nets()
  {
    if t != [] {
      InAnnouncement(t[1..], s, net);
      if t[0].net != s && net in t[0].Nets() {
      } else if i :| 0 <= i < |t| && t[i].net != s && net in t[i].Nets() {
        assert t[1..][i - 1] == t[i];
      }
    }
  }

  lemma {:induction false} AnnouncementNoDup(t: Table, s: Net)
    requires Distinct(t)
    ensures NoDup(Announcement(t, s))
  {
    if t != [] {
      AnnouncementNoDup(t[1..], s);
      if t[0].net != s {
        forall x | x in t[0].Nets() ensures x !in Announcement(t[1..], s) {
          InAnnouncement(t[1..], s, x);
          forall i | 0 <= i < |t[1..]| ensures x !in t[1..][i].Nets() {
            assert Disjoint(t[0].Nets(), t[i + 1].Nets());
          }
        }
        NoDupConcat(t[0].Nets(), Announcement(t[1..], s));
      }
    }
  }

  /** Split horizon: announced on `s`, each once, are exactly the networks routed through another port. */
  lemma SplitHorizon(t: Table, s: Net)
    requires Distinct(t)
    ensures NoDup(Announcement(t, s))
    ensures forall net: Net :: net in Announcement(t, s) <==> Known(t, net) && Resolve(t, net).port != s
  {
    AnnouncementNoDup(t, s);
    forall net: Net
      ensures net in Announcement(t, s) <==> Known(t, net) && Resolve(t, net).port != s
    {
      InAnnouncement(t, s, net);
      if i :| 0 <= i < |t| && t[i].net != s && net in t[i].Nets() {
        assert forall k :: 0 <= k < i ==> Disjoint(t[k].Nets(), t[i].Nets());
        FindIs(t, net, i);
      }
    }
  }

  /** The I-Am-Router-To-Network branch: `dnet_add` for each listed network in turn. */
  function LearnAll(t: Table, snet: Net, nets: seq<Net>, mac: Mac): Table
    decreases |nets|
  {
    if nets == [] then t else LearnAll(DnetAdd(t, snet, nets[0], mac), snet, nets[1..], mac)
  }

  /** The reference for learning a whole list: keep the map, add the unknown networks under `via`. */
  ghost function Extend(m: Routes, nets: seq<Net>, via: Via): Routes {
    m + map net | net in nets && net !in m :: via
  }

  lemma ExtendStep(m: Routes, nets: seq<Net>, via: Via)
    requires nets != []
    ensures Extend(m, nets, via)
            == Extend(if nets[0] in m then m else m[nets[0] := via], nets[1..], via)
  {
    assert forall net :: net in nets <==> net == nets[0] || net in nets[1..];
  }

  /** A router that hears a list on `snet` keeps its map and adds, all under the arrival port
      and the announcer's address, exactly the listed networks it did not know. */
  lemma {:induction false} LearnAllExtends(t: Table, snet: Net, nets: seq<Net>, mac: Mac)
    requires Known(t, snet)
    ensures AsMap(LearnAll(t, snet, nets, mac)) == Extend(AsMap(t), nets, Via(Resolve(t, snet).port, Through(mac)))
    decreases |nets|
  {
    if nets == [] {
      assert Extend(AsMap(t), nets, Via(Resolve(t, snet).port, Through(mac))) == AsMap(t);
    } else {
      var u := DnetAdd(t, snet, nets[0], mac);
      DnetAddRefines(t, snet, nets[0], mac);
      ExtendStep(AsMap(t), nets, Via(Resolve(t, snet).port, Through(mac)));
      assert snet in AsMap(u) && AsMap(u)[snet] == Resolve(t, snet);
      LearnAllExtends(u, snet, nets[1..], mac);
    }
  }

  /** What a neighbour's table becomes after reading, off the wire, the announcement of `t` on `s`:
      its old map, and every network `t` routes through another port that it did not know. */
  lemma NeighbourLearnsAnnouncement(t: Table, s: Net, u: Table, mac: Mac, net: Net)
    requires Distinct(t) && Known(u, s)
    ensures var u' := LearnAll(u, s, DecodeNets(EncodeNets(Announcement(t, s))), mac);
            && (Known(u', net) <==> Known(u, net) || (Known(t, net) && Resolve(t, net).port != s))
            && (Known(u, net) ==> Resolve(u', net) == Resolve(u, net))
            && (Known(u', net) && !Known(u, net) ==> Resolve(u', net) == Via(Resolve(u, s).port, Through(mac)))
  {
    var u' := LearnAll(u, s, Announcement(t, s), mac);
    NetsRoundTrip(Announcement(t, s));
    SplitHorizon(t, s);
    LearnAllExtends(u, s, Announcement(t, s), mac);
    assert Known(u', net) <==> net in AsMap(u');
    assert Known(u, net) <==> net in AsMap(u);
  }
}
