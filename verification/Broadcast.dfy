/** A global broadcast spreading through an internetwork, whatever the order in which the
    routers take its copies and whatever their tables hold. */
module Broadcast {
  import opened Octets
  import opened NpduCodec
  import opened RoutingTable
  import opened Routing
  import opened Topology
  import opened Internetwork
  import opened Spreading

  datatype Flood = Flood(tables: seq<Table>, copies: Spread)

  function Result(w: Flood, k: nat, r: nat): Outcome
    requires k < |w.copies.log| && r < |w.tables|
  {
    var f := w.copies.log[k].frame;
    Handle(w.tables[r], f.net, f.sender, f.npdu)
  }

  ghost predicate CanTake(topo: Topology, w: Flood, k: nat, r: nat) {
    && r < |w.tables| && Pending(topo, w.copies, k, r)
    && forall s :: s in Result(w, k, r).sends ==> s.net in topo[r]
  }

  /** Router `r` takes copy `k` and relays it. */
  ghost function Take(topo: Topology, w: Flood, k: nat, r: nat): Flood
    requires CanTake(topo, w, k, r)
  {
    Flood(w.tables[r := Result(w, k, r).table],
          Spread(w.copies.log + CopiesOf(topo[r], Result(w, k, r).sends, r), w.copies.done + {(k, r)}))
  }

  ghost predicate Spreads(topo: Topology, w: Flood, takes: seq<(nat, nat)>, w': Flood)
    decreases |takes|
  {
    if takes == [] then w == w'
    else && CanTake(topo, w, takes[0].0, takes[0].1)
         && Spreads(topo, Take(topo, w, takes[0].0, takes[0].1), takes[1..], w')
  }

  /** A station's global broadcast of something other than a confirmed request. */
  predicate Original(f: Frame) {
    && f.net != 0 && f.sender != [] && f.npdu.snet == 0 && f.npdu.dnet == BROADCAST
    && f.npdu.content.Apdu? && !Confirmed(f.npdu.content.apdu)
  }

  /** A copy carries the original's content and names the original's network and station. */
  predicate Faithful(f: Frame, m: Npdu) {
    m == f.npdu.(snet := f.net, sadr := f.sender, dadr := [], hop := m.hop)
  }

  /** The routers keep their ports, and every copy but the first is a router's and faithful. */
  ghost predicate FloodOk(topo: Topology, w: Flood, f: Frame) {
    && |w.tables| == |topo| && (forall r :: 0 <= r < |topo| ==> Attached(topo, w.tables[r], r))
    && w.copies.log != [] && w.copies.log[0] == Copy(f, STATION)
    && (forall k :: 1 <= k < |w.copies.log| ==> Faithful(f, w.copies.log[k].frame.npdu))
  }

  /** Whoever has taken a copy is done with all its networks. */
  ghost predicate TakersCovered(topo: Topology, w: Spread) {
    forall d {:trigger d in w.done} :: d in w.done ==> Covered(topo, w, d.1)
  }

  ghost predicate FloodInv(topo: Topology, w: Flood, f: Frame) {
    FloodOk(topo, w, f) && SpreadInv(topo, w.copies, f.net) && TakersCovered(topo, w.copies)
  }

  /** What a router sends on taking a copy: one on each other network, source kept or filled in. */
  lemma TakeSends(topo: Topology, w: Flood, f: Frame, k: nat, r: nat)
    requires FloodOk(topo, w, f) && Original(f) && Pending(topo, w.copies, k, r)
    ensures var g := w.copies.log[k].frame;
            && Result(w, k, r).sends
               == SendAll(Others(PortNets(w.tables[r]), g.net), [], Relayed(g.net, g.sender, g.npdu, BROADCAST, []))
            && Faithful(f, Relayed(g.net, g.sender, g.npdu, BROADCAST, []))
    ensures CanTake(topo, w, k, r)
  {
    if k > 0 { assert Faithful(f, w.copies.log[k].frame.npdu); }
  }

  lemma StaysAttached(topo: Topology, w: Flood, f: Frame, k: nat, r: nat)
    requires FloodOk(topo, w, f) && Pending(topo, w.copies, k, r)
    ensures Attached(topo, Result(w, k, r).table, r)
  {
    var g := w.copies.log[k].frame;
    HandleGrows(w.tables[r], g.net, g.sender, g.npdu);
  }

  lemma TakeKeepsOk(topo: Topology, w: Flood, f: Frame, k: nat, r: nat)
    requires FloodOk(topo, w, f) && Original(f) && Pending(topo, w.copies, k, r)
    ensures CanTake(topo, w, k, r) && FloodOk(topo, Take(topo, w, k, r), f)
  {
    TakeSends(topo, w, f, k, r);
    StaysAttached(topo, w, f, k, r);
  }

  lemma TakeIsStep(topo: Topology, w: Flood, f: Frame, k: nat, r: nat)
    requires FloodOk(topo, w, f) && Original(f) && Pending(topo, w.copies, k, r)
    ensures CanTake(topo, w, k, r)
    ensures var others := Others(PortNets(w.tables[r]), w.copies.log[k].frame.net);
            && Step(topo, w.copies, k, r, others, Take(topo, w, k, r).copies)
            && forall q :: q in others <==> q in topo[r] && q != w.copies.log[k].frame.net
  {
    TakeSends(topo, w, f, k, r);
    OthersAre(topo, w.tables[r], r, w.copies.log[k].frame.net);
  }

  lemma TakersStayCovered(topo: Topology, w: Spread, k: nat, r: nat, others: seq<Net>, w': Spread)
    requires TakersCovered(topo, w) && Step(topo, w, k, r, others, w')
    requires forall q :: q in others <==> q in topo[r] && q != w.log[k].frame.net
    ensures TakersCovered(topo, w')
  {
    forall d | d in w'.done ensures Covered(topo, w', d.1) {
      if d in w.done {
        CoveredStays(topo, w, k, r, others, w', d.1);
      } else {
        TakerIsCovered(topo, w, k, r, others, w');
      }
    }
  }

  lemma TakeKeepsInv(topo: Topology, w: Flood, f: Frame, k: nat, r: nat)
    requires FloodInv(topo, w, f) && Original(f) && Acyclic(topo) && Pending(topo, w.copies, k, r)
    ensures CanTake(topo, w, k, r) && FloodInv(topo, Take(topo, w, k, r), f)
    ensures |Left(topo, Take(topo, w, k, r).copies)| < |Left(topo, w.copies)|
  {
    TakeIsStep(topo, w, f, k, r);
    TakeKeepsOk(topo, w, f, k, r);
    var others, w' := Others(PortNets(w.tables[r]), w.copies.log[k].frame.net), Take(topo, w, k, r);
    StepKeepsSpread(topo, w.copies, f.net, k, r, others, w'.copies);
    TakersStayCovered(topo, w.copies, k, r, others, w'.copies);
    StepUsesOne(topo, w.copies, f.net, k, r, others, w'.copies);
  }

  /** The broadcast has just been put on its first network. */
  ghost predicate FloodStart(topo: Topology, w: Flood, f: Frame) {
    && |w.tables| == |topo| && (forall r :: 0 <= r < |topo| ==> Attached(topo, w.tables[r], r))
    && w.copies == Spread([Copy(f, STATION)], {})
  }

  lemma StartFloodInv(topo: Topology, w: Flood, f: Frame)
    requires FloodStart(topo, w, f)
    ensures FloodInv(topo, w, f)
  {
    FromStation(topo, f);
  }

  lemma {:induction false} SpreadKeepsInv(topo: Topology, w: Flood, f: Frame, takes: seq<(nat, nat)>, w': Flood)
    requires FloodInv(topo, w, f) && Original(f) && Acyclic(topo) && Spreads(topo, w, takes, w')
    ensures FloodInv(topo, w', f)
    decreases |takes|
  {
    if takes != [] {
      TakeKeepsInv(topo, w, f, takes[0].0, takes[0].1);
      SpreadKeepsInv(topo, Take(topo, w, takes[0].0, takes[0].1), f, takes[1..], w');
    }
  }

  // ----- once each -----

  /** On a tree, whatever the tables, the order of events and the hop count, a global broadcast
      that is not a confirmed request is put exactly once on every network that can be reached,
      and every relayed copy names the network and the station it came from. */
  lemma ExactlyOnce(topo: Topology, w: Flood, f: Frame, takes: seq<(nat, nat)>, w': Flood, n: Net)
    requires FloodStart(topo, w, f) && Original(f) && Acyclic(topo)
    requires Spreads(topo, w, takes, w') && Finished(topo, w'.copies)
    requires SameSide(topo, |topo|, f.net, n)
    ensures var log := w'.copies.log;
            && (exists k :: 0 <= k < |log| && log[k].frame.net == n)
            && (forall i, j :: 0 <= i < j < |log| && log[i].frame.net == n ==> log[j].frame.net != n)
            && (forall k :: 1 <= k < |log| ==> Faithful(f, log[k].frame.npdu))
  {
    StartFloodInv(topo, w, f);
    SpreadKeepsInv(topo, w, f, takes, w');
    assert w'.copies.log[0].frame.net == f.net;
    var hops :| Walk(topo, |topo|, f.net, hops, n);
    FinishedIsEverywhere(topo, w'.copies, f.net, |topo|, f.net, hops, n);
    assert OnNet(w'.copies, n);
  }

  /** A broadcast is taken at most once by each router from each of its networks, and then stops. */
  lemma {:induction false} BroadcastIsFinite(topo: Topology, w: Flood, f: Frame, takes: seq<(nat, nat)>, w': Flood)
    requires FloodInv(topo, w, f) && Original(f) && Acyclic(topo) && Spreads(topo, w, takes, w')
    ensures |takes| <= |Left(topo, w.copies)|
    decreases |takes|
  {
    if takes != [] {
      var w1 := Take(topo, w, takes[0].0, takes[0].1);
      TakeKeepsInv(topo, w, f, takes[0].0, takes[0].1);
      BroadcastIsFinite(topo, w1, f, takes[1..], w');
    }
  }

  // ----- and every router's own application layer gets it -----

  ghost predicate Took(w: Spread, x: nat) {
    exists j: nat :: (j, x) in w.done
  }

  /** Who has sent a copy has taken one, and nobody has taken two. */
  ghost predicate OneEach(w: Spread) {
    && (forall x: nat {:trigger Sends(w, x)} :: Sends(w, x) ==> Took(w, x))
    && (forall i, j, x {:trigger (i, x) in w.done, (j, x) in w.done} ::
          (i, x) in w.done && (j, x) in w.done ==> i == j)
  }

  /** A router that has taken a copy has none left to take. */
  lemma TakerIsDone(topo: Topology, w: Spread, from: Net, k: nat, r: nat, j: nat)
    requires SpreadInv(topo, w, from) && TakersCovered(topo, w) && (j, r) in w.done
    ensures !Pending(topo, w, k, r)
  {
    if Reaching(topo, w, k, r) {
      assert Covered(topo, w, (j, r).1);
      assert Served(w, r, w.log[k].frame.net);
      var i: nat :| i < |w.log| && w.log[i].frame.net == w.log[k].frame.net
                    && (w.log[i].sentBy == r || (i, r) in w.done);
      assert i == k;
    }
  }

  lemma TakeKeepsOneEach(topo: Topology, w: Flood, f: Frame, k: nat, r: nat)
    requires FloodInv(topo, w, f) && Original(f) && Pending(topo, w.copies, k, r) && OneEach(w.copies)
    ensures CanTake(topo, w, k, r) && OneEach(Take(topo, w, k, r).copies)
  {
    TakeIsStep(topo, w, f, k, r);
    var a, b := w.copies, Take(topo, w, k, r).copies;
    Earlier(topo, a, k, r, Others(PortNets(w.tables[r]), a.log[k].frame.net), b);
    forall x: nat | Sends(b, x) ensures Took(b, x) {
      var i: nat :| i < |b.log| && b.log[i].sentBy == x;
      if i < |a.log| {
        assert Sends(a, x);
        var j: nat :| (j, x) in a.done;
        assert (j, x) in b.done;
      } else {
        assert (k, x) in b.done;
      }
    }
    forall i, j, x | (i, x) in b.done && (j, x) in b.done ensures i == j {
      if (i, x) in a.done && x == r { TakerIsDone(topo, a, f.net, k, r, i); }
      if (j, x) in a.done && x == r { TakerIsDone(topo, a, f.net, k, r, j); }
    }
  }

  lemma {:induction false} SpreadKeepsOneEach(topo: Topology, w: Flood, f: Frame, takes: seq<(nat, nat)>, w': Flood)
    requires FloodInv(topo, w, f) && Original(f) && Acyclic(topo) && Spreads(topo, w, takes, w') && OneEach(w.copies)
    ensures OneEach(w'.copies)
    decreases |takes|
  {
    if takes != [] {
      TakeKeepsInv(topo, w, f, takes[0].0, takes[0].1);
      TakeKeepsOneEach(topo, w, f, takes[0].0, takes[0].1);
      SpreadKeepsOneEach(topo, Take(topo, w, takes[0].0, takes[0].1), f, takes[1..], w');
    }
  }

  /** When the broadcast is over every router that can be reached has taken it exactly once, and has handed the
      original's APDU to its own application layer, with the station it came from unless it heard that itself. */
  lemma HandedOnce(topo: Topology, w: Flood, f: Frame, takes: seq<(nat, nat)>, w': Flood, x: nat, n: Net)
    returns (k: nat)
    requires FloodStart(topo, w, f) && Original(f) && Acyclic(topo)
    requires Spreads(topo, w, takes, w') && Finished(topo, w'.copies)
    requires x < |topo| && n in topo[x] && SameSide(topo, |topo|, f.net, n)
    ensures k < |w'.copies.log| && forall j: nat :: (j, x) in w'.copies.done <==> j == k
    ensures var g := w'.copies.log[k].frame;
            HandOver(g.sender, g.npdu)
            == [if k == 0 then Handed(f.sender, 0, f.npdu.sadr, f.npdu.content.apdu)
                else Handed(g.sender, f.net, f.sender, f.npdu.content.apdu)]
  {
    StartFloodInv(topo, w, f);
    SpreadKeepsInv(topo, w, f, takes, w');
    SpreadKeepsOneEach(topo, w, f, takes, w');
    ExactlyOnce(topo, w, f, takes, w', n);
    var c := w'.copies;
    var i: nat :| i < |c.log| && c.log[i].frame.net == n;
    if c.log[i].sentBy == x { assert Sends(c, x); } else { assert !Pending(topo, c, i, x); }
    assert Took(c, x);
    k :| (k, x) in c.done;
    assert Reaching(topo, c, (k, x).0, (k, x).1);
    if k > 0 { assert Faithful(f, c.log[k].frame.npdu); }
  }
}
