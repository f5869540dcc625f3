/** How copies of one message spread when each router that takes one passes it to all its other networks or to
    none: on a tree no network gets a second copy, and the spreading ends. */
module Spreading {
  import opened Octets
  import opened RoutingTable
  import opened Routing
  import opened RouterLaws
  import opened Topology
  import opened Internetwork
  import opened Completion

  const STATION: int := -1

  /** A frame put on a network by a router, or by the station it started from. */
  datatype Copy = Copy(frame: Frame, sentBy: int)

  /** Every copy put on some network so far, in order, and which routers have taken which. */
  datatype Spread = Spread(log: seq<Copy>, done: set<(nat, nat)>)

  /** Copy `k` is on a network of router `r` and is not its own. */
  predicate Reaching(topo: Topology, w: Spread, k: nat, r: nat) {
    k < |w.log| && r < |topo| && w.log[k].frame.net in topo[r] && w.log[k].sentBy != r
  }

  /** Router `r` has yet to take copy `k`. */
  predicate Pending(topo: Topology, w: Spread, k: nat, r: nat) {
    Reaching(topo, w, k, r) && (k, r) !in w.done
  }

  function CopiesOf(ports: map<Net, Mac>, sends: seq<Send>, r: nat): (cs: seq<Copy>)
    requires forall s :: s in sends ==> s.net in ports
    ensures |cs| == |sends|
    ensures forall i :: 0 <= i < |cs| ==> cs[i] == Copy(Frame(sends[i].net, ports[sends[i].net], sends[i].npdu), r)
  {
    seq(|sends|, i requires 0 <= i < |sends| =>
      assert sends[i] in sends; Copy(Frame(sends[i].net, ports[sends[i].net], sends[i].npdu), r))
  }

  ghost predicate Sends(w: Spread, x: nat) {
    exists k :: 0 <= k < |w.log| && w.log[k].sentBy == x
  }

  ghost predicate OnNet(w: Spread, n: Net) {
    exists k :: 0 <= k < |w.log| && w.log[k].frame.net == n
  }

  /** Router `x` has put a copy on the network or taken the one on it. */
  ghost predicate Served(w: Spread, x: nat, n: Net) {
    exists k: nat :: k < |w.log| && w.log[k].frame.net == n && (w.log[k].sentBy == x || (k, x) in w.done)
  }

  /** It has done so on all its networks. */
  ghost predicate Covered(topo: Topology, w: Spread, x: nat) {
    x < |topo| && forall p {:trigger Served(w, x, p)} :: p in topo[x] ==> Served(w, x, p)
  }

  ghost predicate Apart(log: seq<Copy>) {
    forall i, j :: 0 <= i < j < |log| ==> log[i].frame.net != log[j].frame.net
  }

  /** What has been sent lies, for every router that has sent nothing, on the side of the network it came from. */
  ghost predicate SpreadInv(topo: Topology, w: Spread, from: Net) {
    && Apart(w.log)
    && (forall k, x: nat {:trigger SameSide(topo, x, from, w.log[k].frame.net)} ::
          0 <= k < |w.log| && !Sends(w, x) ==> SameSide(topo, x, from, w.log[k].frame.net))
    && (forall x: nat {:trigger Sends(w, x)} :: Sends(w, x) ==> Covered(topo, w, x))
    && (forall d :: d in w.done ==> Reaching(topo, w, d.0, d.1))
  }

  /** A station has put one copy on its network. */
  lemma FromStation(topo: Topology, f: Frame)
    ensures SpreadInv(topo, Spread([Copy(f, STATION)], {}), f.net)
  {
    forall x: nat ensures SameSide(topo, x, f.net, f.net) { SameSideRefl(topo, x, f.net); }
  }

  /** A router has put a copy on each of its networks. */
  lemma FromRouter(topo: Topology, w: Spread, r: nat, from: Net)
    requires r < |topo| && from in topo[r] && w.done == {} && Apart(w.log)
    requires forall k :: 0 <= k < |w.log| ==> w.log[k].sentBy == r && w.log[k].frame.net in topo[r]
    requires forall p :: p in topo[r] ==> OnNet(w, p)
    ensures SpreadInv(topo, w, from)
  {
    forall k, x: nat | 0 <= k < |w.log| && !Sends(w, x) ensures SameSide(topo, x, from, w.log[k].frame.net) {
      assert Sends(w, r);
      Adjacent(topo, x, r, from, w.log[k].frame.net);
    }
    forall p | p in topo[r] ensures Served(w, r, p) {
      assert OnNet(w, p);
      var k: nat :| k < |w.log| && w.log[k].frame.net == p;
    }
  }

  /** A router that has sent anything has nothing left to take. */
  lemma SenderIsDone(topo: Topology, w: Spread, from: Net, k: nat, r: nat)
    requires SpreadInv(topo, w, from) && Sends(w, r) && Reaching(topo, w, k, r)
    ensures (k, r) in w.done
  {
    assert Served(w, r, w.log[k].frame.net);
    var j: nat :| j < |w.log| && w.log[j].frame.net == w.log[k].frame.net
                  && (w.log[j].sentBy == r || (j, r) in w.done);
    assert j == k;
  }

  /** On a tree no other network of a router with something to take has a copy yet. */
  lemma OthersAreNew(topo: Topology, w: Spread, from: Net, k: nat, r: nat, q: Net, i: nat)
    requires SpreadInv(topo, w, from) && Acyclic(topo) && Pending(topo, w, k, r)
    requires q in topo[r] && q != w.log[k].frame.net && i < |w.log|
    ensures w.log[i].frame.net != q
  {
    if Sends(w, r) { SenderIsDone(topo, w, from, k, r); }
    var p := w.log[k].frame.net;
    assert SameSide(topo, r, from, p) && SameSide(topo, r, from, w.log[i].frame.net);
    if w.log[i].frame.net == q {
      SameSideSym(topo, r, from, p);
      SameSideTrans(topo, r, p, from, q);
    }
  }

  lemma OthersAre(topo: Topology, t: Table, r: nat, net: Net)
    requires Attached(topo, t, r)
    ensures NoDup(Others(PortNets(t), net)) && forall q :: q in Others(PortNets(t), net) <==> q in topo[r] && q != net
  {
    PortNetsNoDup(t);
    OthersNoDup(PortNets(t), net);
  }

  /** A log extended by one copy on each of some networks. */
  ghost predicate Extends(log: seq<Copy>, longer: seq<Copy>, r: nat, others: seq<Net>) {
    && |longer| == |log| + |others| && longer[..|log|] == log
    && forall i :: 0 <= i < |others| ==> longer[|log| + i].sentBy == r && longer[|log| + i].frame.net == others[i]
  }

  /** If those networks are new and differ, no network is repeated. */
  lemma StayApart(log: seq<Copy>, longer: seq<Copy>, r: nat, others: seq<Net>)
    requires Extends(log, longer, r, others) && NoDup(others) && Apart(log)
    requires forall i, q :: 0 <= i < |log| && q in others ==> log[i].frame.net != q
    ensures Apart(longer)
  {
    var n := |log|;
    forall i, j | 0 <= i < j < |longer| ensures longer[i].frame.net != longer[j].frame.net {
      assert i < n ==> longer[i] == longer[..n][i];
      assert j < n ==> longer[j] == longer[..n][j];
      assert i >= n ==> longer[n + (i - n)].frame.net == others[i - n];
      assert j >= n ==> longer[n + (j - n)].frame.net == others[j - n] && others[j - n] in others;
    }
  }

  /** Router `r` has taken copy `k` and passed it to all its other networks, or to none. */
  ghost predicate Step(topo: Topology, w: Spread, k: nat, r: nat, others: seq<Net>, w': Spread) {
    && Pending(topo, w, k, r) && w'.done == w.done + {(k, r)} && Extends(w.log, w'.log, r, others) && NoDup(others)
    && (others == [] || forall q :: q in others <==> q in topo[r] && q != w.log[k].frame.net)
  }

  /** What was in the log is in the longer one, and the new copies are the router's. */
  lemma Earlier(topo: Topology, w: Spread, k: nat, r: nat, others: seq<Net>, w': Spread)
    requires Step(topo, w, k, r, others, w')
    ensures |w.log| <= |w'.log| && forall i :: 0 <= i < |w.log| ==> w'.log[i] == w.log[i]
    ensures forall i :: |w.log| <= i < |w'.log| ==>
              w'.log[i].sentBy == r && w'.log[i].frame.net in topo[r] && w'.log[i].frame.net != w.log[k].frame.net
    ensures forall q :: q in others ==> exists i :: |w.log| <= i < |w'.log| && w'.log[i].frame.net == q
  {
    var n := |w.log|;
    forall i | 0 <= i < n ensures w'.log[i] == w.log[i] {
      assert w'.log[i] == w'.log[..n][i];
    }
    forall i | n <= i < |w'.log|
      ensures w'.log[i].sentBy == r && w'.log[i].frame.net in topo[r] && w'.log[i].frame.net != w.log[k].frame.net
    {
      assert w'.log[n + (i - n)].frame.net == others[i - n] && others[i - n] in others;
    }
    forall q | q in others ensures exists i :: n <= i < |w'.log| && w'.log[i].frame.net == q {
      var i: nat :| i < |others| && others[i] == q;
      assert w'.log[n + i].frame.net == q;
    }
  }

  lemma ServedStays(topo: Topology, w: Spread, k: nat, r: nat, others: seq<Net>, w': Spread, x: nat, p: Net)
    requires Step(topo, w, k, r, others, w') && Served(w, x, p)
    ensures Served(w', x, p)
  {
    Earlier(topo, w, k, r, others, w');
    var i: nat :| i < |w.log| && w.log[i].frame.net == p && (w.log[i].sentBy == x || (i, x) in w.done);
    assert w'.log[i] == w.log[i];
  }

  lemma CoveredStays(topo: Topology, w: Spread, k: nat, r: nat, others: seq<Net>, w': Spread, x: nat)
    requires Step(topo, w, k, r, others, w') && Covered(topo, w, x)
    ensures Covered(topo, w', x)
  {
    forall p | p in topo[x] ensures Served(w', x, p) {
      assert Served(w, x, p);
      ServedStays(topo, w, k, r, others, w', x, p);
    }
  }

  /** A router that passes a copy on is done with all its networks. */
  lemma TakerIsCovered(topo: Topology, w: Spread, k: nat, r: nat, others: seq<Net>, w': Spread)
    requires Step(topo, w, k, r, others, w')
    requires forall q :: q in others <==> q in topo[r] && q != w.log[k].frame.net
    ensures Covered(topo, w', r)
  {
    Earlier(topo, w, k, r, others, w');
    forall p | p in topo[r] ensures Served(w', r, p) {
      if p == w.log[k].frame.net {
        assert w'.log[k] == w.log[k] && (k, r) in w'.done;
      } else {
        assert p in others;
        var i: nat :| |w.log| <= i < |w'.log| && w'.log[i].frame.net == p;
        assert w'.log[i].sentBy == r;
      }
    }
  }

  lemma SendsStays(topo: Topology, w: Spread, k: nat, r: nat, others: seq<Net>, w': Spread, x: nat)
    requires Step(topo, w, k, r, others, w') && Sends(w, x)
    ensures Sends(w', x)
  {
    Earlier(topo, w, k, r, others, w');
    var j: nat :| j < |w.log| && w.log[j].sentBy == x;
    assert w'.log[j].sentBy == x;
  }

  lemma StepSenders(topo: Topology, w: Spread, from: Net, k: nat, r: nat, others: seq<Net>, w': Spread, x: nat)
    requires SpreadInv(topo, w, from) && Step(topo, w, k, r, others, w') && Sends(w', x)
    ensures Covered(topo, w', x)
  {
    Earlier(topo, w, k, r, others, w');
    var i: nat :| i < |w'.log| && w'.log[i].sentBy == x;
    if i < |w.log| {
      assert w.log[i].sentBy == x;
      assert Sends(w, x);
      CoveredStays(topo, w, k, r, others, w', x);
    } else {
      assert others != [];
      TakerIsCovered(topo, w, k, r, others, w');
    }
  }

  lemma StepSides(topo: Topology, w: Spread, from: Net, k: nat, r: nat, others: seq<Net>, w': Spread, i: nat, x: nat)
    requires SpreadInv(topo, w, from) && Step(topo, w, k, r, others, w') && i < |w'.log| && !Sends(w', x)
    ensures SameSide(topo, x, from, w'.log[i].frame.net)
  {
    Earlier(topo, w, k, r, others, w');
    if Sends(w, x) { SendsStays(topo, w, k, r, others, w', x); }
    if i < |w.log| {
      assert SameSide(topo, x, from, w.log[i].frame.net);
    } else {
      assert SameSide(topo, x, from, w.log[k].frame.net);
      Adjacent(topo, x, r, w.log[k].frame.net, w'.log[i].frame.net);
      SameSideTrans(topo, x, from, w.log[k].frame.net, w'.log[i].frame.net);
    }
  }

  /** On a tree every step keeps the invariant: no network gets a second copy. */
  lemma StepKeepsSpread(topo: Topology, w: Spread, from: Net, k: nat, r: nat, others: seq<Net>, w': Spread)
    requires SpreadInv(topo, w, from) && Acyclic(topo) && Step(topo, w, k, r, others, w')
    ensures SpreadInv(topo, w', from)
  {
    Earlier(topo, w, k, r, others, w');
    forall i, q | 0 <= i < |w.log| && q in others ensures w.log[i].frame.net != q {
      OthersAreNew(topo, w, from, k, r, q, i);
    }
    StayApart(w.log, w'.log, r, others);
    forall i, x: nat | 0 <= i < |w'.log| && !Sends(w', x) ensures SameSide(topo, x, from, w'.log[i].frame.net) {
      StepSides(topo, w, from, k, r, others, w', i, x);
    }
    forall x: nat | Sends(w', x) ensures Covered(topo, w', x) {
      StepSenders(topo, w, from, k, r, others, w', x);
    }
    forall d | d in w'.done ensures Reaching(topo, w', d.0, d.1) {
      if d != (k, r) { assert Reaching(topo, w, d.0, d.1); }
    }
  }

  // ----- everywhere -----

  ghost predicate Finished(topo: Topology, w: Spread) {
    forall k, r :: !Pending(topo, w, k, r)
  }

  /** A router that passes on what it takes has put a copy on each network it joins, or found one there. */
  lemma OneFurther(topo: Topology, w: Spread, from: Net, a: Net, y: nat, c: Net)
    requires SpreadInv(topo, w, from) && Finished(topo, w) && OnNet(w, a)
    requires y < |topo| && a in topo[y] && c in topo[y]
    requires forall k: nat :: (k, y) in w.done ==> Covered(topo, w, y)
    ensures OnNet(w, c)
  {
    var k: nat :| k < |w.log| && w.log[k].frame.net == a;
    if w.log[k].sentBy == y {
      assert Sends(w, y);
    } else {
      assert !Pending(topo, w, k, y);
      assert (k, y) in w.done;
    }
    assert Covered(topo, w, y);
    assert Served(w, y, c);
  }

  /** When nobody has anything left to take, there is a copy on every network that such routers lead to. */
  lemma {:induction false} FinishedIsEverywhere(topo: Topology, w: Spread, from: Net, x: nat, a: Net,
                                                hops: seq<Hop>, b: Net)
    requires SpreadInv(topo, w, from) && Finished(topo, w) && OnNet(w, a) && Walk(topo, x, a, hops, b)
    requires forall h :: h in hops ==> forall k: nat :: (k, h.router) in w.done ==> Covered(topo, w, h.router)
    ensures OnNet(w, b)
    decreases |hops|
  {
    if hops != [] {
      assert hops[0] in hops;
      OneFurther(topo, w, from, a, hops[0].router, hops[0].net);
      FinishedIsEverywhere(topo, w, from, x, hops[0].net, hops[1..], b);
    }
  }

  // ----- and it ends -----

  /** Which routers have taken a copy from which network. */
  ghost function Taken(w: Spread): set<(Net, nat)> {
    set d | d in w.done && d.0 < |w.log| :: (w.log[d.0].frame.net, d.1)
  }

  ghost function Attachments(topo: Topology): set<(Net, nat)> {
    set r: nat, n: Net | r < |topo| && n in topo[r] :: (n, r)
  }

  /** The attachments from which nothing has been taken yet; each step uses one up. */
  ghost function Left(topo: Topology, w: Spread): set<(Net, nat)> {
    Attachments(topo) - Taken(w)
  }

  lemma TakenGrows(topo: Topology, w: Spread, k: nat, r: nat, others: seq<Net>, w': Spread)
    requires Step(topo, w, k, r, others, w')
    ensures Taken(w) <= Taken(w') && (w.log[k].frame.net, r) in Taken(w')
  {
    Earlier(topo, w, k, r, others, w');
    forall d | d in w.done && d.0 < |w.log| ensures (w.log[d.0].frame.net, d.1) in Taken(w') {
      assert d in w'.done && w'.log[d.0] == w.log[d.0];
    }
    assert (k, r) in w'.done && w'.log[k] == w.log[k];
  }

  /** Networks differ, so what is pending has not been taken under another number either. */
  lemma PendingIsNew(topo: Topology, w: Spread, from: Net, k: nat, r: nat)
    requires SpreadInv(topo, w, from) && Pending(topo, w, k, r)
    ensures (w.log[k].frame.net, r) !in Taken(w)
  {
    forall d | d in w.done && d.0 < |w.log| ensures (w.log[d.0].frame.net, d.1) != (w.log[k].frame.net, r) {
      assert d.0 < k || k < d.0 || d.1 != r;
    }
  }

  lemma StepUsesOne(topo: Topology, w: Spread, from: Net, k: nat, r: nat, others: seq<Net>, w': Spread)
    requires SpreadInv(topo, w, from) && Step(topo, w, k, r, others, w')
    ensures |Left(topo, w')| < |Left(topo, w)|
  {
    TakenGrows(topo, w, k, r, others, w');
    PendingIsNew(topo, w, from, k, r);
    var x := (w.log[k].frame.net, r);
    assert x in Attachments(topo);
    SubsetNotLarger(Left(topo, w'), Left(topo, w) - {x});
  }
}
