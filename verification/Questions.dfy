/** A Who-Is-Router question passed on by routers that do not know the network. Nothing counts its hops. */
module Questions {
  import opened Octets
  import opened NpduCodec
  import opened RoutingTable
  import opened Routing
  import opened RouterLaws
  import opened Topology
  import opened Internetwork
  import opened Spreading

  predicate Asks(m: Npdu) {
    m.content.Control? && m.content.kind == WHO_IS_ROUTER
  }

  /** The questions among what is sent. */
  function Questions(sends: seq<Send>): (qs: seq<Send>)
    ensures forall s :: s in qs ==> s in sends && Asks(s.npdu)
  {
    if sends == [] then []
    else (if Asks(sends[0].npdu) then [sends[0]] else []) + Questions(sends[1..])
  }

  /** Router `r` takes a question; its table holds whatever it has learned by then. */
  datatype Take = Take(k: nat, r: nat, table: Table)

  function Asked(w: Spread, e: Take): seq<Send>
    requires e.k < |w.log|
  {
    var f := w.log[e.k].frame;
    Questions(Handle(e.table, f.net, f.sender, f.npdu).sends)
  }

  ghost predicate CanTake(topo: Topology, w: Spread, e: Take) {
    && Pending(topo, w, e.k, e.r) && Attached(topo, e.table, e.r)
    && forall s :: s in Asked(w, e) ==> s.net in topo[e.r]
  }

  ghost function After(topo: Topology, w: Spread, e: Take): Spread
    requires CanTake(topo, w, e)
  {
    Spread(w.log + CopiesOf(topo[e.r], Asked(w, e), e.r), w.done + {(e.k, e.r)})
  }

  ghost predicate Spreads(topo: Topology, w: Spread, takes: seq<Take>, w': Spread)
    decreases |takes|
  {
    if takes == [] then w == w'
    else && CanTake(topo, w, takes[0]) && Spreads(topo, After(topo, w, takes[0]), takes[1..], w')
  }

  ghost predicate AllAsk(w: Spread) {
    forall k :: 0 <= k < |w.log| ==> Asks(w.log[k].frame.npdu)
  }

  /** The question has been put on one network by a station, or on all its networks by a router that was to relay
      a message to an unknown network. */
  ghost predicate Begun(topo: Topology, w: Spread, from: Net) {
    && AllAsk(w) && w.done == {}
    && (|| (exists f :: w.log == [Copy(f, STATION)] && f.net == from)
        || (exists r: nat, t, net :: r < |topo| && from in topo[r] && Attached(topo, t, r)
                                     && w.log == CopiesOf(topo[r], WhoIsRouter(t, 0, net), r)))
  }

  lemma RouterBegins(topo: Topology, w: Spread, r: nat, t: Table, net: Net, from: Net)
    requires r < |topo| && from in topo[r] && Attached(topo, t, r) && w.done == {}
    requires w.log == CopiesOf(topo[r], SendAll(PortNets(t), [], Question(net)), r)
    ensures SpreadInv(topo, w, from) && OnNet(w, from)
  {
    PortNetsNoDup(t);
    assert forall k :: 0 <= k < |w.log| ==> w.log[k].frame.net == PortNets(t)[k] && PortNets(t)[k] in PortNets(t);
    forall p | p in topo[r] ensures OnNet(w, p) {
      var i: nat :| i < |PortNets(t)| && PortNets(t)[i] == p;
      assert w.log[i].frame.net == p;
    }
    FromRouter(topo, w, r, from);
  }

  lemma BegunSpreads(topo: Topology, w: Spread, from: Net)
    requires Begun(topo, w, from)
    ensures SpreadInv(topo, w, from) && AllAsk(w) && OnNet(w, from)
  {
    if f :| w.log == [Copy(f, STATION)] && f.net == from {
      FromStation(topo, f);
      assert w.log[0].frame.net == from;
    } else {
      var r: nat, t, net :| r < |topo| && from in topo[r] && Attached(topo, t, r)
                            && w.log == CopiesOf(topo[r], WhoIsRouter(t, 0, net), r);
      RouterBegins(topo, w, r, t, net, from);
    }
  }

  lemma {:induction false} AllAreQuestions(sends: seq<Send>)
    requires forall i :: 0 <= i < |sends| ==> Asks(sends[i].npdu)
    ensures Questions(sends) == sends
  {
    if sends != [] { AllAreQuestions(sends[1..]); }
  }

  lemma {:induction false} NoneAsk(sends: seq<Send>)
    requires forall s :: s in sends ==> !Asks(s.npdu)
    ensures Questions(sends) == []
  {
    if sends != [] { NoneAsk(sends[1..]); }
  }

  lemma NoneInAnswer(t: Table, snet: Net, payload: seq<Octet>)
    requires |payload| < 2 || Known(t, DecodeNet(payload))
    ensures Questions(AnswerWhoIs(t, snet, payload)) == []
  {
    NoneAsk(AnswerWhoIs(t, snet, payload));
  }

  lemma HandledAs(t: Table, snet: Net, mac: Mac, m: Npdu)
    requires Asks(m)
    ensures Handle(t, snet, mac, m).sends
            == if m.dnet == 0 || m.dnet == BROADCAST then AnswerWhoIs(t, snet, m.content.payload) else []
  {
  }

  /** A router passes the question on to all its other networks, or to none. */
  lemma PassedOn(topo: Topology, w: Spread, e: Take) returns (others: seq<Net>)
    requires AllAsk(w) && Pending(topo, w, e.k, e.r) && Attached(topo, e.table, e.r)
    ensures others == [] || others == Others(PortNets(e.table), w.log[e.k].frame.net)
    ensures |Asked(w, e)| == |others| && forall i :: 0 <= i < |others| ==> Asked(w, e)[i].net == others[i]
  {
    var f := w.log[e.k].frame;
    var t, payload := e.table, f.npdu.content.payload;
    HandledAs(t, f.net, f.sender, f.npdu);
    if f.npdu.dnet != 0 && f.npdu.dnet != BROADCAST {
      others := [];
    } else if |payload| >= 2 && !Known(t, DecodeNet(payload)) {
      others := Others(PortNets(t), f.net);
      OnEachPort(t, others, DecodeNet(payload));
      AllAreQuestions(WhoIsOnEach(t, others, DecodeNet(payload)));
    } else {
      others := [];
      NoneInAnswer(t, f.net, payload);
    }
  }

  lemma TakeIsStep(topo: Topology, w: Spread, e: Take) returns (others: seq<Net>)
    requires AllAsk(w) && Pending(topo, w, e.k, e.r) && Attached(topo, e.table, e.r)
    ensures CanTake(topo, w, e) && AllAsk(After(topo, w, e)) && Step(topo, w, e.k, e.r, others, After(topo, w, e))
  {
    others := PassedOn(topo, w, e);
    OthersAre(topo, e.table, e.r, w.log[e.k].frame.net);
    forall s | s in Asked(w, e) ensures s.net in topo[e.r] {
      var i: nat :| i < |Asked(w, e)| && Asked(w, e)[i] == s;
      assert others[i] in others;
    }
  }

  /** On a tree, whatever the tables hold by the time a router takes it, a question is put at most once on every
      network, and its spreading ends: each router takes it at most once from each of its networks. */
  lemma {:induction false} QuestionEnds(topo: Topology, w: Spread, from: Net, takes: seq<Take>, w': Spread)
    requires SpreadInv(topo, w, from) && AllAsk(w) && Acyclic(topo) && Spreads(topo, w, takes, w')
    ensures |takes| <= |Left(topo, w)|
    ensures forall i, j :: 0 <= i < j < |w'.log| ==> w'.log[i].frame.net != w'.log[j].frame.net
    decreases |takes|
  {
    if takes != [] {
      var w1 := After(topo, w, takes[0]);
      var others := TakeIsStep(topo, w, takes[0]);
      StepKeepsSpread(topo, w, from, takes[0].k, takes[0].r, others, w1);
      StepUsesOne(topo, w, from, takes[0].k, takes[0].r, others, w1);
      QuestionEnds(topo, w1, from, takes[1..], w');
    }
  }

  /** From whoever asks. */
  lemma AskedOnce(topo: Topology, w: Spread, from: Net, takes: seq<Take>, w': Spread)
    requires Begun(topo, w, from) && Acyclic(topo) && Spreads(topo, w, takes, w')
    ensures |takes| <= |Attachments(topo)|
    ensures forall i, j :: 0 <= i < j < |w'.log| ==> w'.log[i].frame.net != w'.log[j].frame.net
  {
    BegunSpreads(topo, w, from);
    QuestionEnds(topo, w, from, takes, w');
    assert Left(topo, w) == Attachments(topo);
  }

  // ----- and it gets everywhere -----

  /** The question asks for network `net`, and is for every router. */
  predicate AsksFor(m: Npdu, net: Net) {
    && Asks(m) && (m.dnet == 0 || m.dnet == BROADCAST)
    && |m.content.payload| >= 2 && DecodeNet(m.content.payload) == net
  }

  ghost predicate AllAskFor(w: Spread, net: Net) {
    forall k :: 0 <= k < |w.log| ==> AsksFor(w.log[k].frame.npdu, net)
  }

  lemma QuestionAsksFor(net: Net)
    requires net != 0
    ensures AsksFor(Question(net), net)
  {
    NetRoundTrip(net, []);
    assert EncodeNet(net) + [] == EncodeNet(net);
  }

  /** Who does not know the network passes the very question on, to all its other networks. */
  lemma PassedOnFor(topo: Topology, w: Spread, e: Take, net: Net)
    requires AllAskFor(w, net) && net != 0 && Pending(topo, w, e.k, e.r) && Attached(topo, e.table, e.r)
    ensures Asked(w, e) == if Known(e.table, net) then []
                           else SendAll(Others(PortNets(e.table), w.log[e.k].frame.net), [], Question(net))
  {
    var f := w.log[e.k].frame;
    var t, payload := e.table, f.npdu.content.payload;
    HandledAs(t, f.net, f.sender, f.npdu);
    if Known(t, net) {
      NoneInAnswer(t, f.net, payload);
    } else {
      OnEachPort(t, Others(PortNets(t), f.net), net);
      AllAreQuestions(WhoIsOnEach(t, Others(PortNets(t), f.net), net));
    }
  }

  lemma StepAsksFor(topo: Topology, w: Spread, e: Take, net: Net)
    requires AllAskFor(w, net) && net != 0 && CanTake(topo, w, e)
    ensures AllAskFor(After(topo, w, e), net)
  {
    PassedOnFor(topo, w, e, net);
    QuestionAsksFor(net);
  }

  lemma UnknowingStep(topo: Topology, w: Spread, e: Take, net: Net)
    requires AllAskFor(w, net) && net != 0 && CanTake(topo, w, e) && !Known(e.table, net)
    ensures Covered(topo, After(topo, w, e), e.r)
  {
    PassedOnFor(topo, w, e, net);
    var others := Others(PortNets(e.table), w.log[e.k].frame.net);
    OthersAre(topo, e.table, e.r, w.log[e.k].frame.net);
    TakerIsCovered(topo, w, e.k, e.r, others, After(topo, w, e));
  }

  /** None of these routers knows the network when it takes the question. */
  ghost predicate Unknowing(takes: seq<Take>, routers: set<nat>, net: Net) {
    forall e :: e in takes && e.r in routers ==> !Known(e.table, net)
  }

  ghost predicate TakersCovered(topo: Topology, w: Spread, routers: set<nat>) {
    forall d {:trigger d in w.done} :: d in w.done && d.1 in routers ==> Covered(topo, w, d.1)
  }

  lemma {:induction false} QuestionSpreads(topo: Topology, w: Spread, from: Net, takes: seq<Take>, w': Spread,
                                           net: Net, routers: set<nat>)
    requires SpreadInv(topo, w, from) && AllAskFor(w, net) && net != 0 && Acyclic(topo)
    requires Spreads(topo, w, takes, w') && Unknowing(takes, routers, net) && TakersCovered(topo, w, routers)
    ensures SpreadInv(topo, w', from) && AllAskFor(w', net) && TakersCovered(topo, w', routers)
    decreases |takes|
  {
    if takes != [] {
      var e := takes[0];
      var w1 := After(topo, w, e);
      var others := TakeIsStep(topo, w, e);
      StepKeepsSpread(topo, w, from, e.k, e.r, others, w1);
      StepAsksFor(topo, w, e, net);
      Earlier(topo, w, e.k, e.r, others, w1);
      if e.r in routers { UnknowingStep(topo, w, e, net); }
      forall d | d in w1.done && d.1 in routers ensures Covered(topo, w1, d.1) {
        if d in w.done { CoveredStays(topo, w, e.k, e.r, others, w1, d.1); }
      }
      QuestionSpreads(topo, w1, from, takes[1..], w', net, routers);
    }
  }

  /** On a tree, when nobody has a question left to take, it has been put exactly once on every network to which
      there is a way of routers that did not know the answer, and everywhere it is the same question. */
  lemma EverywhereOnce(topo: Topology, w: Spread, from: Net, takes: seq<Take>, w': Spread, net: Net,
                       hops: seq<Hop>, n: Net)
    requires Begun(topo, w, from) && AllAskFor(w, net) && net != 0 && Acyclic(topo)
    requires Spreads(topo, w, takes, w') && Finished(topo, w')
    requires Walk(topo, |topo|, from, hops, n) && Unknowing(takes, RoutersOf(hops), net)
    ensures exists k :: 0 <= k < |w'.log| && w'.log[k].frame.net == n
    ensures forall i, j :: 0 <= i < j < |w'.log| && w'.log[i].frame.net == n ==> w'.log[j].frame.net != n
    ensures forall k :: 0 <= k < |w'.log| ==> AsksFor(w'.log[k].frame.npdu, net)
  {
    BegunSpreads(topo, w, from);
    QuestionSpreads(topo, w, from, takes, w', net, RoutersOf(hops));
    StaysOn(topo, w, from, takes, w', from);
    forall h | h in hops ensures forall k: nat :: (k, h.router) in w'.done ==> Covered(topo, w', h.router) {
      assert h.router in RoutersOf(hops);
    }
    FinishedIsEverywhere(topo, w', from, |topo|, from, hops, n);
    assert OnNet(w', n);
  }

  lemma {:induction false} StaysOn(topo: Topology, w: Spread, from: Net, takes: seq<Take>, w': Spread, n: Net)
    requires AllAsk(w) && Spreads(topo, w, takes, w') && OnNet(w, n)
    ensures OnNet(w', n)
    decreases |takes|
  {
    if takes != [] {
      var others := TakeIsStep(topo, w, takes[0]);
      var w1 := After(topo, w, takes[0]);
      Earlier(topo, w, takes[0].k, takes[0].r, others, w1);
      var k: nat :| k < |w.log| && w.log[k].frame.net == n;
      assert w1.log[k].frame.net == n;
      StaysOn(topo, w1, from, takes[1..], w', n);
    }
  }
}
