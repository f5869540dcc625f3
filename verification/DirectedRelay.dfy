/** Directed messages: relaying one is finite in any topology, and on a tree with complete
    tables it arrives exactly when its hop count allows. */
module DirectedRelay {
  import opened Octets
  import opened NpduCodec
  import opened RoutingTable
  import opened Routing
  import opened Internetwork

  /** An APDU for one remote network. */
  predicate Directed(m: Npdu) {
    m.content.Apdu? && m.dnet != 0 && m.dnet != BROADCAST
  }

  // ----- finite in any topology, with any tables -----

  /** The copies that still carry a destination network, and so may be relayed again. */
  function Copies(sends: seq<Send>): seq<Send> {
    if sends == [] then []
    else (if sends[0].npdu.content.Apdu? && sends[0].npdu.dnet != 0 then [sends[0]] else []) + Copies(sends[1..])
  }

  lemma {:induction false} CopiesConcat(a: seq<Send>, b: seq<Send>)
    ensures Copies(a + b) == Copies(a) + Copies(b)
  {
    if a == [] {
      assert a + b == b;
    } else {
      assert (a + b)[1..] == a[1..] + b;
      CopiesConcat(a[1..], b);
    }
  }

  lemma {:induction false} CopiesAre(sends: seq<Send>)
    ensures |Copies(sends)| <= |sends|
    ensures forall s :: s in Copies(sends) <==> s in sends && s.npdu.content.Apdu? && s.npdu.dnet != 0
  {
    if sends != [] { CopiesAre(sends[1..]); }
  }

  lemma {:induction false} NoCopiesOfControl(sends: seq<Send>)
    requires forall s :: s in sends ==> s.npdu.content.Control?
    ensures Copies(sends) == []
  {
    if sends != [] { NoCopiesOfControl(sends[1..]); }
  }

  /** One hop less than `m`, never below one, for the same destination. */
  predicate Shrunk(s: Send, m: Npdu) {
    Directed(s.npdu) && s.npdu.dnet == m.dnet && 1 <= s.npdu.hop == m.hop - 1
  }

  lemma RelayedShrinks(snet: Net, mac: Mac, m: Npdu)
    requires Directed(m) && m.hop > 1
    ensures forall net, to :: Shrunk(Send(net, to, Relayed(snet, mac, m, m.dnet, m.dadr)), m)
  {
  }

  /** The ports that copies leave by. */
  function NetsOf(sends: seq<Send>): (ns: seq<Net>)
    ensures |ns| == |sends| && forall i :: 0 <= i < |sends| ==> ns[i] == sends[i].net
  {
    seq(|sends|, i requires 0 <= i < |sends| => sends[i].net)
  }

  lemma {:induction false} OthersAreSome(nets: seq<Net>, snet: Net)
    ensures multiset(Others(nets, snet)) <= multiset(nets)
  {
    if nets != [] {
      OthersAreSome(nets[1..], snet);
      assert nets == [nets[0]] + nets[1..];
    }
  }

  lemma {:induction false} CopiesOfFlood(nets: seq<Net>, mac: Mac, m: Npdu)
    requires m.content.Apdu? && m.dnet != 0
    ensures Copies(SendAll(nets, mac, m)) == SendAll(nets, mac, m)
  {
    if nets != [] {
      assert SendAll(nets, mac, m)[1..] == SendAll(nets[1..], mac, m);
      CopiesOfFlood(nets[1..], mac, m);
      assert [Send(nets[0], mac, m)] + SendAll(nets[1..], mac, m) == SendAll(nets, mac, m);
    }
  }

  lemma KnownCopies(t: Table, snet: Net, mac: Mac, m: Npdu)
    requires Directed(m) && m.hop > 1 && Known(t, m.dnet)
    ensures var copies := Copies(RouteApdu(t, snet, mac, m).sends);
            && (forall s :: s in copies ==> Shrunk(s, m))
            && multiset(NetsOf(copies)) <= multiset(PortNets(t))
  {
    var sends := RouteApdu(t, snet, mac, m).sends;
    RelayedShrinks(snet, mac, m);
    CopiesAre(sends);
    var port := PortNets(t)[Find(t, m.dnet)];
    assert |sends| == 1 && sends[0].net == port;
    assert NetsOf(Copies(sends)) == if Copies(sends) == [] then [] else [port];
  }

  lemma FloodCopies(t: Table, snet: Net, mac: Mac, m: Npdu)
    requires Directed(m) && m.hop > 1 && !Known(t, m.dnet)
    ensures var copies := Copies(RouteApdu(t, snet, mac, m).sends);
            && (forall s :: s in copies ==> Shrunk(s, m))
            && multiset(NetsOf(copies)) <= multiset(PortNets(t))
  {
    var others := Others(PortNets(t), snet);
    var flood := SendAll(others, [], Relayed(snet, mac, m, m.dnet, m.dadr));
    var ask := WhoIsRouter(t, 0, m.dnet);
    CopiesConcat(flood, ask);
    CopiesOfFlood(others, [], Relayed(snet, mac, m, m.dnet, m.dadr));
    NoCopiesOfControl(ask);
    RelayedShrinks(snet, mac, m);
    assert flood + [] == flood && NetsOf(flood) == others;
    OthersAreSome(PortNets(t), snet);
  }

  /** Relaying takes exactly one hop off, never below one, keeps the destination, and makes at
      most one copy for each port. */
  lemma RelayShrinks(t: Table, snet: Net, mac: Mac, m: Npdu)
    requires Directed(m)
    ensures var copies := Copies(Handle(t, snet, mac, m).sends);
            && (forall s :: s in copies ==> Directed(s.npdu) && s.npdu.dnet == m.dnet && 1 <= s.npdu.hop == m.hop - 1)
            && multiset(NetsOf(copies)) <= multiset(PortNets(t))
            && |copies| <= |t|
  {
    if m.hop > 1 {
      if Known(t, m.dnet) {
        KnownCopies(t, snet, mac, m);
      } else {
        FloodCopies(t, snet, mac, m);
      }
    }
    FewerOf(NetsOf(Copies(Handle(t, snet, mac, m).sends)), PortNets(t));
  }

  lemma FewerOf<T>(a: seq<T>, b: seq<T>)
    requires multiset(a) <= multiset(b)
    ensures |a| <= |b|
  {
    assert |multiset(b)| == |multiset(a)| + |multiset(b) - multiset(a)|;
  }

  /** A copy on its way to one router. */
  datatype InFlight = InFlight(router: nat, frame: Frame)

  datatype World = World(tables: seq<Table>, pending: seq<InFlight>)

  /** One delivery: the router handles the copy, and each copy it makes in turn goes to any
      routers at all, each at most once. */
  datatype Delivery = Delivery(index: nat, made: seq<InFlight>)

  ghost predicate CanDeliver(w: World, d: Delivery) {
    && d.index < |w.pending|
    && var p := w.pending[d.index];
    && p.router < |w.tables|
    && var copies := Copies(Handle(w.tables[p.router], p.frame.net, p.frame.sender, p.frame.npdu).sends);
    && |d.made| <= |copies| * |w.tables|
    && forall q :: q in d.made ==> exists s :: s in copies && q.frame.npdu == s.npdu
  }

  ghost function Delivered(w: World, d: Delivery): World
    requires CanDeliver(w, d)
  {
    var p := w.pending[d.index];
    World(w.tables[p.router := Handle(w.tables[p.router], p.frame.net, p.frame.sender, p.frame.npdu).table],
          w.pending[..d.index] + w.pending[d.index + 1..] + d.made)
  }

  ghost predicate Deliveries(w: World, ds: seq<Delivery>)
    decreases |ds|
  {
    ds == [] || (CanDeliver(w, ds[0]) && Deliveries(Delivered(w, ds[0]), ds[1..]))
  }

  ghost predicate AllDirected(w: World, ports: nat) {
    && (forall p :: p in w.pending ==> Directed(p.frame.npdu))
    && (forall r :: 0 <= r < |w.tables| ==> |w.tables[r]| <= ports)
  }

  function Power(b: nat, e: nat): (p: nat)
    ensures b > 0 ==> p > 0
  {
    if e == 0 then 1 else b * Power(b, e - 1)
  }

  /** How many deliveries the pending copies can still cause: each weighs one more than the most
      copies a reception can make, to the power of its hop count. */
  function Weight(b: nat, pending: seq<InFlight>): nat {
    if pending == [] then 0 else Power(b, pending[0].frame.npdu.hop) + Weight(b, pending[1..])
  }

  lemma {:induction false} WeightConcat(b: nat, p: seq<InFlight>, q: seq<InFlight>)
    ensures Weight(b, p + q) == Weight(b, p) + Weight(b, q)
  {
    if p == [] {
      assert p + q == q;
    } else {
      assert (p + q)[1..] == p[1..] + q;
      WeightConcat(b, p[1..], q);
    }
  }

  lemma OneMoreTime(n: nat, x: nat)
    ensures x + n * x == (n + 1) * x
  {
  }

  lemma {:induction false} WeightOfCopies(b: nat, pending: seq<InFlight>, hop: nat)
    requires forall p :: p in pending ==> p.frame.npdu.hop == hop
    ensures Weight(b, pending) == |pending| * Power(b, hop)
  {
    if pending != [] {
      assert forall p :: p in pending[1..] ==> p in pending;
      WeightOfCopies(b, pending[1..], hop);
      OneMoreTime(|pending| - 1, Power(b, hop));
    }
  }

  lemma ProductMonotone(a: nat, b: nat, c: nat)
    requires a <= b
    ensures a * c <= b * c
  {
  }

  lemma {:induction false} WeightSplit(b: nat, pending: seq<InFlight>, i: nat)
    requires i < |pending|
    ensures Weight(b, pending) == Weight(b, pending[..i] + pending[i + 1..]) + Power(b, pending[i].frame.npdu.hop)
  {
    if i == 0 {
      assert pending[..0] + pending[1..] == pending[1..];
    } else {
      WeightSplit(b, pending[1..], i - 1);
      assert (pending[..i] + pending[i + 1..])[1..] == pending[1..][..i - 1] + pending[1..][i..];
    }
  }

  /** Replacing one pending copy by fewer than `b` copies of one hop less makes the weight smaller. */
  lemma ReplaceShrinks(b: nat, pending: seq<InFlight>, i: nat, made: seq<InFlight>)
    requires i < |pending| && |made| < b
    requires forall q :: q in made ==> q.frame.npdu.hop == pending[i].frame.npdu.hop - 1
    ensures Weight(b, pending[..i] + pending[i + 1..] + made) < Weight(b, pending)
  {
    WeightSplit(b, pending, i);
    WeightConcat(b, pending[..i] + pending[i + 1..], made);
    FewerWeighLess(b, pending[i], made);
  }

  lemma FewerWeighLess(b: nat, p: InFlight, made: seq<InFlight>)
    requires |made| < b
    requires forall q :: q in made ==> q.frame.npdu.hop == p.frame.npdu.hop - 1
    ensures Weight(b, made) < Power(b, p.frame.npdu.hop)
  {
    if made != [] {
      var hop := made[0].frame.npdu.hop;
      WeightOfCopies(b, made, hop);
      ProductStrict(|made|, b, Power(b, hop));
    }
  }

  lemma ProductStrict(a: nat, b: nat, c: nat)
    requires a < b && c > 0
    ensures a * c < b * c
  {
  }

  /** One more than the copies that one delivery can make. */
  function Fanout(ports: nat, routers: nat): nat {
    ports * routers + 1
  }

  lemma MadeAreSmaller(w: World, d: Delivery, ports: nat)
    requires AllDirected(w, ports) && CanDeliver(w, d)
    ensures |d.made| < Fanout(ports, |w.tables|)
    ensures forall q :: q in d.made ==>
              Directed(q.frame.npdu) && q.frame.npdu.hop == w.pending[d.index].frame.npdu.hop - 1
  {
    var p := w.pending[d.index];
    var t := w.tables[p.router];
    RelayShrinks(t, p.frame.net, p.frame.sender, p.frame.npdu);
    ProductMonotone(|Copies(Handle(t, p.frame.net, p.frame.sender, p.frame.npdu).sends)|, ports, |w.tables|);
  }

  /** Each delivery makes the weight smaller. */
  lemma DeliveryShrinks(w: World, d: Delivery, ports: nat)
    requires AllDirected(w, ports) && CanDeliver(w, d)
    ensures AllDirected(Delivered(w, d), ports)
    ensures Weight(Fanout(ports, |w.tables|), Delivered(w, d).pending) < Weight(Fanout(ports, |w.tables|), w.pending)
    ensures |Delivered(w, d).tables| == |w.tables|
  {
    MadeAreSmaller(w, d, ports);
    ReplaceShrinks(Fanout(ports, |w.tables|), w.pending, d.index, d.made);
    var p := w.pending[d.index];
    var t := w.tables[p.router];
    HandleKeepsPorts(t, p.frame.net, p.frame.sender, p.frame.npdu);
    assert |PortNets(t)| == |PortNets(Handle(t, p.frame.net, p.frame.sender, p.frame.npdu).table)|;
  }

  /** In any topology, cycles included, and with any tables, the copies of directed messages are
      delivered only finitely often. */
  lemma {:induction false} RelayingIsFinite(w: World, ports: nat, ds: seq<Delivery>)
    requires AllDirected(w, ports) && Deliveries(w, ds)
    ensures |ds| <= Weight(Fanout(ports, |w.tables|), w.pending)
    decreases |ds|
  {
    if ds != [] {
      DeliveryShrinks(w, ds[0], ports);
      RelayingIsFinite(Delivered(w, ds[0]), ports, ds[1..]);
    }
  }
}
