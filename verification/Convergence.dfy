/** When announcements have nothing left to teach, every table is complete; and that
    point can always be reached. */
module Convergence {
  import opened Octets
  import opened RoutingTable
  import opened Topology
  import opened Internetwork

  /** Hearing router `s` list what it reaches on `n` teaches router `r` nothing. */
  ghost predicate NothingNew(topo: Topology, tables: seq<Table>, s: nat, n: Net, r: nat)
    requires |tables| == |topo| && s < |topo| && r < |topo|
  {
    forall net :: net in Announcement(tables[s], n) ==> Known(tables[r], net)
  }

  ghost predicate Quiet(topo: Topology, tables: seq<Table>)
    requires |tables| == |topo|
  {
    forall s, n, r :: 0 <= s < |topo| && 0 <= r < |topo| && r != s && n in topo[s] && n in topo[r]
                      ==> NothingNew(topo, tables, s, n, r)
  }

  /** Every router has an entry for every network beyond any of its ports. */
  ghost predicate Complete(topo: Topology, tables: seq<Table>)
    requires |tables| == |topo|
  {
    forall r, p, net {:trigger SameSide(topo, r, p, net)} ::
      0 <= r < |topo| && p in topo[r] && SameSide(topo, r, p, net) ==> Known(tables[r], net)
  }

  /** Quiet means complete: by induction on how far away the network is. */
  lemma {:induction false} QuietKnows(topo: Topology, st: State, r: nat, p: Net, hops: seq<Hop>, net: Net)
    requires Inv(topo, st) && Acyclic(topo) && Quiet(topo, st.tables)
    requires r < |topo| && p in topo[r] && Walk(topo, r, p, hops, net)
    ensures Known(st.tables[r], net)
    decreases |hops|
  {
    if hops == [] {
      PortResolves(st.tables[r], p);
    } else {
      var x := hops[0].router;
      var c, rest := LastExit(topo, r, hops[0].net, hops[1..], net, x);
      if c == p {
        QuietKnows(topo, st, r, p, rest, net);
      } else {
        QuietKnows(topo, st, x, c, rest, net);
        assert RouteSound(topo, x, st.tables[x], net);
        SoundRouteIsExact(topo, x, st.tables[x], net, c);
        SplitHorizon(st.tables[x], p);
        assert NothingNew(topo, st.tables, x, p, r);
      }
    }
  }

  lemma QuietIsComplete(topo: Topology, st: State)
    requires Inv(topo, st) && Acyclic(topo) && Quiet(topo, st.tables)
    ensures Complete(topo, st.tables)
  {
    forall r, p, net | 0 <= r < |topo| && p in topo[r] && SameSide(topo, r, p, net)
      ensures Known(st.tables[r], net)
    {
      var hops :| Walk(topo, r, p, hops, net);
      QuietKnows(topo, st, r, p, hops, net);
    }
  }

  lemma CompleteIsQuiet(topo: Topology, st: State)
    requires Inv(topo, st) && Complete(topo, st.tables)
    ensures Quiet(topo, st.tables)
  {
    forall s, n, r, net | 0 <= s < |topo| && 0 <= r < |topo| && r != s && n in topo[s] && n in topo[r]
                          && net in Announcement(st.tables[s], n)
      ensures Known(st.tables[r], net)
    {
      SplitHorizon(st.tables[s], n);
      assert RouteSound(topo, s, st.tables[s], net);
      var p := Resolve(st.tables[s], net).port;
      SettledSpreads(topo, st.tables, s, p, n, net);
    }
  }

  /** Stations on one network have different addresses. */
  ghost predicate DistinctAddresses(topo: Topology) {
    forall r, s, n :: 0 <= r < |topo| && 0 <= s < |topo| && r != s && n in topo[r] && n in topo[s]
                      ==> topo[r][n] != topo[s][n]
  }
}
