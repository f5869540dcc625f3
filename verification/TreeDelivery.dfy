/** On a tree with complete tables, a directed message arrives, once, exactly when its
    hop count exceeds the number of routers on the way. */
module TreeDelivery {
  import opened Octets
  import opened NpduCodec
  import opened RoutingTable
  import opened Routing
  import opened Topology
  import opened Internetwork
  import opened Convergence
  import opened NextHops
  import opened Completion
  import opened DirectedRelay

  /** What becomes of a directed message handed to a router. */
  datatype Fate =
    | Dropped                          // no copy is made
    | Arrived(net: Net, copy: Send)    // one copy, without a destination, on its last network
    | Scattered                        // anything else: several copies, or a next router nobody answers for

  ghost predicate Answers(topo: Topology, x: nat, r: nat, n: Net, mac: Mac) {
    x < |topo| && x != r && n in topo[x] && topo[x][n] == mac
  }

  datatype Taker = Nobody | Taker(router: nat)

  /** The router that takes a frame sent by `r` to `mac` off the wire. */
  ghost function TakerOf(topo: Topology, st: State, r: nat, mac: Mac, f: Frame): (t: Taker)
    ensures t.Taker? ==> Enabled(topo, st, Receive(t.router, f))
  {
    if exists x: nat :: Answers(topo, x, r, f.net, mac) && Enabled(topo, st, Receive(x, f)) then
      var x: nat :| Answers(topo, x, r, f.net, mac) && Enabled(topo, st, Receive(x, f));
      Taker(x)
    else Nobody
  }

  /** Follows the one copy from router to router, each taking it off the wire and learning from it. */
  ghost function FateOf(topo: Topology, st: State, r: nat, f: Frame): Fate
    requires Enabled(topo, st, Receive(r, f))
    decreases f.npdu.hop
  {
    var sends := Handle(st.tables[r], f.net, f.sender, f.npdu).sends;
    if sends == [] then Dropped
    else if |sends| != 1 || sends[0].net !in topo[r] then Scattered
    else if sends[0].npdu.dnet == 0 then Arrived(sends[0].net, sends[0])
    else
      var st' := After(topo, st, Receive(r, f));
      var f' := Frame(sends[0].net, topo[r][sends[0].net], sends[0].npdu);
      match TakerOf(topo, st', r, sends[0].mac, f')
      case Nobody => Scattered
      case Taker(x) => if f'.npdu.hop < f.npdu.hop then FateOf(topo, st', x, f') else Scattered
  }

  /** The copies put on the networks between, in order. */
  ghost function Way(topo: Topology, st: State, r: nat, f: Frame): seq<Frame>
    requires Enabled(topo, st, Receive(r, f))
    decreases f.npdu.hop
  {
    var sends := Handle(st.tables[r], f.net, f.sender, f.npdu).sends;
    if |sends| != 1 || sends[0].net !in topo[r] || sends[0].npdu.dnet == 0 then []
    else
      var st' := After(topo, st, Receive(r, f));
      var f' := Frame(sends[0].net, topo[r][sends[0].net], sends[0].npdu);
      match TakerOf(topo, st', r, sends[0].mac, f')
      case Nobody => [f']
      case Taker(x) => [f'] + if f'.npdu.hop < f.npdu.hop then Way(topo, st', x, f') else []
  }

  /** Where a message is from: the source it names or, if it names none, the station it was heard from. */
  function SourceNet(f: Frame): Net {
    if f.npdu.snet != 0 then f.npdu.snet else f.net
  }

  function SourceAdr(f: Frame): Mac {
    if f.npdu.snet != 0 then f.npdu.sadr else f.sender
  }

  /** A message on its way: all as it was sent, with its source named. */
  function Underway(f: Frame, hop: Octet): Npdu {
    Npdu(f.npdu.expectingReply, f.npdu.priority, f.npdu.dnet, f.npdu.dadr, SourceNet(f), SourceAdr(f), hop,
         f.npdu.content)
  }

  /** The message on its last network, for the addressed station: no destination and no hop count, and all else as
      it was sent, with its source named. */
  function LastCopy(f: Frame): Send {
    Send(f.npdu.dnet, f.npdu.dadr,
         Npdu(f.npdu.expectingReply, f.npdu.priority, 0, [], SourceNet(f), SourceAdr(f), 0, f.npdu.content))
  }

  /** So it is relayed. */
  lemma RelayedCarries(f: Frame)
    requires Directed(f.npdu) && f.npdu.hop > 1 && Addressed(f)
    ensures Relayed(f.net, f.sender, f.npdu, 0, []) == LastCopy(f).npdu
    ensures Relayed(f.net, f.sender, f.npdu, f.npdu.dnet, f.npdu.dadr) == Underway(f, f.npdu.hop - 1)
  {
  }

  /** A station addressed and a source both given, as any frame a station or router sends has them. */
  predicate Addressed(f: Frame) {
    f.net != 0 && f.sender != [] && (f.npdu.snet != 0 ==> f.npdu.sadr != [])
  }

  /** On the way to `net` beyond router `r` the table, if it knows the network, names the port the walk leaves by. */
  lemma LeavesBy(topo: Topology, st: State, r: nat, a: Net, hops: seq<Hop>, net: Net)
    requires Inv(topo, st) && Acyclic(topo) && r < |topo| && Known(st.tables[r], net)
    requires hops != [] && hops[0].router == r && SimpleWalk(topo, a, hops, net)
    ensures Resolve(st.tables[r], net).port == hops[0].net
  {
    assert SameSide(topo, r, hops[0].net, net);
    assert RouteSound(topo, r, st.tables[r], net);
    SoundRouteIsExact(topo, r, st.tables[r], net, hops[0].net);
  }

  lemma CompleteKnows(topo: Topology, st: State, r: nat, a: Net, hops: seq<Hop>, net: Net)
    requires Inv(topo, st) && Complete(topo, st.tables) && r < |topo|
    requires hops != [] && hops[0].router == r && SimpleWalk(topo, a, hops, net)
    ensures Known(st.tables[r], net)
  {
    assert SameSide(topo, r, hops[0].net, net);
  }

  /** A simple walk of at least one hop does not end where it started. */
  lemma NotClosed(topo: Topology, a: Net, hops: seq<Hop>, b: Net)
    requires Acyclic(topo) && hops != [] && SimpleWalk(topo, a, hops, b)
    ensures a != b
  {
    assert SameSide(topo, hops[0].router, hops[0].net, b);
  }

  /** The walk from `c` reaches `net` without any router of `c` but the first. */
  lemma OthersAreBehind(topo: Topology, c: Net, hops: seq<Hop>, net: Net, x: nat)
    requires Acyclic(topo) && hops != [] && SimpleWalk(topo, c, hops, net)
    requires x < |topo| && c in topo[x] && x != hops[0].router
    ensures SameSide(topo, x, c, net)
  {
    var y, d := hops[0].router, hops[0].net;
    if x in RoutersOf(hops[1..]) {
      var e := Visits(topo, y, d, hops[1..], net, x);
      Adjacent(topo, y, x, e, c);
      SameSideTrans(topo, y, d, e, c);
    } else {
      Avoids(topo, y, d, hops[1..], net, x);
      Adjacent(topo, x, y, c, d);
      assert SameSide(topo, x, d, net);
      SameSideTrans(topo, x, c, d, net);
    }
  }

  lemma AfterKeepsComplete(topo: Topology, st: State, r: nat, f: Frame)
    requires Inv(topo, st) && Complete(topo, st.tables) && Enabled(topo, st, Receive(r, f))
    ensures var st' := After(topo, st, Receive(r, f)); |st'.tables| == |topo| && Complete(topo, st'.tables)
  {
    HandleGrows(st.tables[r], f.net, f.sender, f.npdu);
  }

  /** The directly connected case. */
  lemma LastHop(topo: Topology, st: State, r: nat, f: Frame, hops: seq<Hop>)
    requires Inv(topo, st) && Enabled(topo, st, Receive(r, f))
    requires Directed(f.npdu) && f.npdu.hop > 1 && Addressed(f)
    requires |hops| == 1 && hops[0].router == r && SimpleWalk(topo, f.net, hops, f.npdu.dnet)
    ensures Handle(st.tables[r], f.net, f.sender, f.npdu).sends == [LastCopy(f)]
  {
    assert hops[1..] == [];
    RelayedCarries(f);
    PortResolves(st.tables[r], f.npdu.dnet);
  }

  /** The general case: one copy, one hop less, to the next router of the walk and to no other. */
  lemma NextHopOn(topo: Topology, st: State, r: nat, f: Frame, hops: seq<Hop>)
    requires Right(topo, st) && Acyclic(topo) && DistinctAddresses(topo)
    requires Enabled(topo, st, Receive(r, f)) && Directed(f.npdu) && f.npdu.hop > 1
    requires Known(st.tables[r], f.npdu.dnet)
    requires |hops| > 1 && hops[0].router == r && SimpleWalk(topo, f.net, hops, f.npdu.dnet)
    ensures var c, y := hops[0].net, hops[1].router;
            && y < |topo| && y != r && c in topo[y] && c != f.net
            && !RelaysBack(st.tables[r], f.net, f.sender, f.npdu)
            && Handle(st.tables[r], f.net, f.sender, f.npdu).sends
               == [Send(c, topo[y][c], Relayed(f.net, f.sender, f.npdu, f.npdu.dnet, f.npdu.dadr))]
            && forall x: nat :: Answers(topo, x, r, c, topo[y][c]) ==> x == y
  {
    var t, net, c, y := st.tables[r], f.npdu.dnet, hops[0].net, hops[1].router;
    LeavesBy(topo, st, r, f.net, hops, net);
    NotClosed(topo, c, hops[1..], net);
    assert NextHopRight(topo, r, t, net);
    var p := t[Find(t, net)];
    assert p.net == c != net;
    var mac := Resolve(t, net).hop.mac;
    assert LeadsOn(topo, r, c, mac, net);
    var s: nat :| s < |topo| && s != r && c in topo[s] && topo[s][c] == mac && !SameSide(topo, s, c, net);
    if s != y {
      OthersAreBehind(topo, c, hops[1..], net, s);
    }
  }

  lemma OnTheWire(topo: Topology, st: State, r: nat, f: Frame, s: Send)
    requires Enabled(topo, st, Receive(r, f)) && s.net in topo[r]
    requires Handle(st.tables[r], f.net, f.sender, f.npdu).sends == [s]
    ensures Frame(s.net, topo[r][s.net], s.npdu) in After(topo, st, Receive(r, f)).wire
  {
    assert s in [s];
    assert Frame(s.net, topo[r][s.net], s.npdu) in FramesOf(topo[r], [s]);
  }

  lemma StateKept(topo: Topology, st: State, r: nat, f: Frame)
    requires Right(topo, st) && Complete(topo, st.tables) && Acyclic(topo)
    requires Enabled(topo, st, Receive(r, f)) && !RelaysBack(st.tables[r], f.net, f.sender, f.npdu)
    ensures var st' := After(topo, st, Receive(r, f)); Right(topo, st') && Complete(topo, st'.tables)
  {
    StepKeepsRight(topo, st, Receive(r, f));
    AfterKeepsComplete(topo, st, r, f);
  }

  /** The copy one hop on: still directed to the same network, still with its first source. */
  lemma CopyKept(f: Frame, f': Frame)
    requires Directed(f.npdu) && f.npdu.hop > 1 && Addressed(f) && f'.net != 0 && f'.sender != []
    requires f'.npdu == Underway(f, f.npdu.hop - 1)
    ensures Directed(f'.npdu) && Addressed(f') && LastCopy(f') == LastCopy(f)
    ensures forall hop: Octet :: Underway(f', hop) == Underway(f, hop)
  {
  }

  /** A single copy that one router answers for shares the fate of what it copies. */
  lemma FateStep(topo: Topology, st: State, r: nat, f: Frame, s: Send, y: nat)
    requires Enabled(topo, st, Receive(r, f)) && |st.tables| == |topo|
    requires Handle(st.tables[r], f.net, f.sender, f.npdu).sends == [s] && s.net in topo[r]
    requires s.npdu.dnet != 0 && s.npdu.hop < f.npdu.hop
    requires Answers(topo, y, r, s.net, s.mac) && forall x: nat :: Answers(topo, x, r, s.net, s.mac) ==> x == y
    requires f.sender != topo[r][f.net] && topo[r][s.net] != topo[y][s.net]
    ensures var st', f' := After(topo, st, Receive(r, f)), Frame(s.net, topo[r][s.net], s.npdu);
            && Enabled(topo, st', Receive(y, f'))
            && FateOf(topo, st, r, f) == FateOf(topo, st', y, f')
            && Way(topo, st, r, f) == [f'] + Way(topo, st', y, f')
  {
    OnTheWire(topo, st, r, f, s);
    var st', f' := After(topo, st, Receive(r, f)), Frame(s.net, topo[r][s.net], s.npdu);
    TakenBy(topo, st', r, s.mac, f', y);
  }

  lemma TakenBy(topo: Topology, st: State, r: nat, mac: Mac, f: Frame, y: nat)
    requires Answers(topo, y, r, f.net, mac) && Enabled(topo, st, Receive(y, f))
    requires forall x: nat :: Answers(topo, x, r, f.net, mac) ==> x == y
    ensures TakerOf(topo, st, r, mac, f) == Taker(y)
  {
  }

  /** All that delivery relies on. */
  ghost predicate Ready(topo: Topology, st: State) {
    && Right(topo, st) && Complete(topo, st.tables) && Acyclic(topo) && DistinctAddresses(topo)
    && NamedStations(topo)
  }

  /** One hop along the walk: the fate of the message is the fate of its copy at the next router. */
  lemma OneHop(topo: Topology, st: State, r: nat, f: Frame, hops: seq<Hop>) returns (st': State, f': Frame)
    requires Ready(topo, st) && Enabled(topo, st, Receive(r, f))
    requires Directed(f.npdu) && f.npdu.hop > 1 && Addressed(f)
    requires |hops| > 1 && hops[0].router == r && SimpleWalk(topo, f.net, hops, f.npdu.dnet)
    ensures Enabled(topo, st', Receive(hops[1].router, f')) && Addressed(f') && Directed(f'.npdu)
    ensures f' == CopyOn(topo, f, hops, 0) && LastCopy(f') == LastCopy(f)
    ensures forall hop: Octet :: Underway(f', hop) == Underway(f, hop)
    ensures FateOf(topo, st, r, f) == FateOf(topo, st', hops[1].router, f')
    ensures Way(topo, st, r, f) == [f'] + Way(topo, st', hops[1].router, f')
    ensures Ready(topo, st')
  {
    var c, y := hops[0].net, hops[1].router;
    CompleteKnows(topo, st, r, f.net, hops, f.npdu.dnet);
    NextHopOn(topo, st, r, f, hops);
    RelayedCarries(f);
    f' := Frame(c, topo[r][c], Underway(f, f.npdu.hop - 1));
    st' := After(topo, st, Receive(r, f));
    CopyKept(f, f');
    FateStep(topo, st, r, f, Send(c, topo[y][c], f'.npdu), y);
    StateKept(topo, st, r, f);
  }

  /** Copy number `i` of the message, counted from 0: on the network the way leaves its router by, sent by that
      router, `i + 1` hops less. */
  function CopyOn(topo: Topology, f: Frame, hops: seq<Hop>, i: nat): Frame
    requires i < |hops| && i + 1 <= f.npdu.hop && hops[i].router < |topo| && hops[i].net in topo[hops[i].router]
  {
    Frame(hops[i].net, topo[hops[i].router][hops[i].net], Underway(f, f.npdu.hop - 1 - i))
  }

  /** A directed message handed to the first router of the way reaches its network if and only if
      its hop count is greater than the number of routers on the way, in a single copy, for the
      addressed station, with its source intact; otherwise it is dropped on the way. */
  lemma {:induction false} DirectedDelivery(topo: Topology, st: State, r: nat, f: Frame, hops: seq<Hop>)
    requires Ready(topo, st) && Enabled(topo, st, Receive(r, f)) && Directed(f.npdu) && Addressed(f)
    requires hops != [] && hops[0].router == r && SimpleWalk(topo, f.net, hops, f.npdu.dnet)
    ensures FateOf(topo, st, r, f)
            == if f.npdu.hop > |hops| then Arrived(f.npdu.dnet, LastCopy(f)) else Dropped
    decreases |hops|
  {
    if f.npdu.hop <= 1 {
    } else if |hops| == 1 {
      assert hops[1..] == [];
      LastHop(topo, st, r, f, hops);
    } else {
      var st', f' := OneHop(topo, st, r, f, hops);
      DirectedDelivery(topo, st', hops[1].router, f', hops[1..]);
    }
  }

  /** These frames are the first copies of the message on this way. */
  ghost predicate FirstCopies(topo: Topology, f: Frame, hops: seq<Hop>, w: seq<Frame>) {
    forall i {:trigger w[i]} :: 0 <= i < |w| ==> IsCopy(topo, f, hops, i, w[i])
  }

  predicate IsCopy(topo: Topology, f: Frame, hops: seq<Hop>, i: nat, f': Frame) {
    && i < |hops| && i + 1 <= f.npdu.hop && hops[i].router < |topo| && hops[i].net in topo[hops[i].router]
    && f' == CopyOn(topo, f, hops, i)
  }

  lemma OneCopyMore(topo: Topology, f: Frame, f': Frame, hops: seq<Hop>, w: seq<Frame>)
    requires |hops| > 1 && f.npdu.hop > 1 && hops[0].router < |topo| && hops[0].net in topo[hops[0].router]
    requires f' == CopyOn(topo, f, hops, 0) && FirstCopies(topo, f', hops[1..], w)
    requires forall hop: Octet :: Underway(f', hop) == Underway(f, hop)
    ensures FirstCopies(topo, f, hops, [f'] + w)
  {
    var all := [f'] + w;
    forall i | 0 <= i < |all| ensures IsCopy(topo, f, hops, i, all[i]) {
      if i > 0 {
        assert IsCopy(topo, f', hops[1..], i - 1, w[i - 1]);
        assert all[i] == w[i - 1] && hops[1..][i - 1] == hops[i];
      }
    }
  }

  /** The copies on the networks between, one on each as far as the hop count goes: all as the message was sent,
      with its source named and one hop less each time. */
  lemma {:induction false} CopiesOnTheWay(topo: Topology, st: State, r: nat, f: Frame, hops: seq<Hop>)
    requires Ready(topo, st) && Enabled(topo, st, Receive(r, f)) && Directed(f.npdu) && Addressed(f)
    requires hops != [] && hops[0].router == r && SimpleWalk(topo, f.net, hops, f.npdu.dnet)
    ensures |Way(topo, st, r, f)|
            == if f.npdu.hop == 0 then 0 else if f.npdu.hop < |hops| then f.npdu.hop - 1 else |hops| - 1
    ensures FirstCopies(topo, f, hops, Way(topo, st, r, f))
    decreases |hops|
  {
    if f.npdu.hop > 1 && |hops| == 1 {
      assert hops[1..] == [];
      LastHop(topo, st, r, f, hops);
    } else if f.npdu.hop > 1 {
      var st', f' := OneHop(topo, st, r, f, hops);
      CopiesOnTheWay(topo, st', hops[1].router, f', hops[1..]);
      OneCopyMore(topo, f, f', hops, Way(topo, st', hops[1].router, f'));
    }
  }

  ghost predicate NamedStations(topo: Topology) {
    forall x: nat, n :: x < |topo| && n in topo[x] ==> topo[x][n] != []
  }

  /** In a ready state, what a station sends to any network behind some router of its own. */
  lemma StationReaches(topo: Topology, st: State, f: Frame, hops: seq<Hop>)
    requires Ready(topo, st) && Directed(f.npdu) && f.npdu.snet == 0 && f.net != 0 && f.sender != []
    requires hops != [] && SimpleWalk(topo, f.net, hops, f.npdu.dnet)
    requires f.sender != topo[hops[0].router][f.net]
    ensures Enabled(topo, st, Inject(f))
    ensures var st', r := After(topo, st, Inject(f)), hops[0].router;
            && Enabled(topo, st', Receive(r, f))
            && FateOf(topo, st', r, f) == if f.npdu.hop > |hops| then Arrived(f.npdu.dnet, LastCopy(f)) else Dropped
  {
    StepKeepsRight(topo, st, Inject(f));
    DirectedDelivery(topo, After(topo, st, Inject(f)), hops[0].router, f, hops);
  }

  /** A message of a station, no router, to a network other than its own that can be reached from there. */
  ghost predicate Sendable(topo: Topology, f: Frame) {
    && Directed(f.npdu) && f.npdu.snet == 0 && f.net != 0 && f.sender != []
    && (forall r :: 0 <= r < |topo| && f.net in topo[r] ==> topo[r][f.net] != f.sender)
    && f.npdu.dnet != f.net && SameSide(topo, |topo|, f.net, f.npdu.dnet)
  }

  /** Handed to the first router of this way, it arrives if its hop count is greater than the number of routers
      on the way, and is dropped on the way if not. */
  ghost predicate GoesBy(topo: Topology, st: State, f: Frame, hops: seq<Hop>) {
    && hops != [] && SimpleWalk(topo, f.net, hops, f.npdu.dnet)
    && Enabled(topo, st, Inject(f)) && Enabled(topo, After(topo, st, Inject(f)), Receive(hops[0].router, f))
    && FateOf(topo, After(topo, st, Inject(f)), hops[0].router, f)
       == if f.npdu.hop > |hops| then Arrived(f.npdu.dnet, LastCopy(f)) else Dropped
  }

  lemma SendableGoes(topo: Topology, st: State, f: Frame) returns (hops: seq<Hop>)
    requires Ready(topo, st) && Sendable(topo, f)
    ensures GoesBy(topo, st, f, hops)
  {
    var walk: seq<Hop> :| Walk(topo, |topo|, f.net, walk, f.npdu.dnet);
    hops := Simplify(topo, |topo|, f.net, walk, f.npdu.dnet);
    StationReaches(topo, st, f, hops);
  }

  /** From start-up on a tree there are announcements after which every message that a station can send has a
      way to its network, and is delivered along it exactly as its hop count allows. */
  lemma FromStartToDelivery(topo: Topology, st: State) returns (events: seq<Event>, st': State)
    requires Start(topo, st) && Acyclic(topo) && DistinctAddresses(topo) && NamedStations(topo)
    ensures Reaches(topo, st, events, st') && Ready(topo, st')
    ensures |events| <= 2 * |Missing(topo, st.tables)|
    ensures forall f :: Sendable(topo, f) ==> exists hops :: GoesBy(topo, st', f, hops)
  {
    StartRight(topo, st);
    events, st' := Converges(topo, st);
    forall f | Sendable(topo, f) ensures exists hops :: GoesBy(topo, st', f, hops) {
      var hops := SendableGoes(topo, st', f);
    }
  }
}
