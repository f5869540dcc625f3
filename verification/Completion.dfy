/** Completeness can always be reached, by announcements alone. */
module Completion {
  import opened Octets
  import opened RoutingTable
  import opened Routing
  import opened Topology
  import opened Internetwork
  import opened Convergence
  import opened NextHops

  /** The entries still missing: a router and a network somewhere in the internetwork. */
  ghost function Missing(topo: Topology, tables: seq<Table>): set<(nat, Net)>
    requires |tables| == |topo|
  {
    set r: nat, net: Net | r < |topo| && !Known(tables[r], net) :: (r, net)
  }

  /** Router `s` lists on `n` what it reaches, and router `r` takes the frame. */
  ghost function AnnouncedFrame(topo: Topology, st: State, s: nat, n: Net): Frame
    requires |st.tables| == |topo| && s < |topo| && n in topo[s]
  {
    Frame(n, topo[s][n], ControlMessage(I_AM_ROUTER, EncodeNets(Announcement(st.tables[s], n))))
  }

  lemma AnnouncementIsSent(topo: Topology, st: State, s: nat, n: Net)
    requires Inv(topo, st) && s < |topo| && n in topo[s]
    ensures AnnouncedFrame(topo, st, s, n) in After(topo, st, Announce(s, n)).wire
  {
    var m := AnnouncedFrame(topo, st, s, n).npdu;
    assert n in PortNets(st.tables[s]) && 0 !in topo[s];
    assert IAmRouter(st.tables[s], n, 0) == [Send(n, [], m)];
    assert Send(n, [], m) in [Send(n, [], m)];
  }

  /** One router learns a network it did not know and no router forgets any: less is missing. */
  lemma LessMissing(topo: Topology, before: seq<Table>, after: seq<Table>, r: nat, net: Net)
    requires |before| == |after| == |topo| && r < |topo| && !Known(before[r], net) && Known(after[r], net)
    requires forall x, n :: 0 <= x < |topo| && Known(before[x], n) ==> Known(after[x], n)
    ensures Missing(topo, after) < Missing(topo, before)
  {
    assert (r, net) in Missing(topo, before) && (r, net) !in Missing(topo, after);
  }

  /** What hearing the announcement does to the listener's table. */
  lemma ListenerLearns(topo: Topology, st: State, s: nat, n: Net, r: nat, net: Net)
    requires Inv(topo, st) && s < |topo| && r < |topo| && n in topo[s] && n in topo[r]
    requires net in Announcement(st.tables[s], n)
    ensures var f := AnnouncedFrame(topo, st, s, n);
            var u := Handle(st.tables[r], n, f.sender, f.npdu).table;
            Known(u, net) && forall m :: Known(st.tables[r], m) ==> Known(u, m)
  {
    var f := AnnouncedFrame(topo, st, s, n);
    HandleGrows(st.tables[r], n, f.sender, f.npdu);
    NetsRoundTrip(Announcement(st.tables[s], n));
    PortResolves(st.tables[r], n);
    LearnAllKnows(st.tables[r], n, Announcement(st.tables[s], n), f.sender, net);
  }

  lemma ExchangeTeaches(topo: Topology, st: State, s: nat, n: Net, r: nat, net: Net) returns (st1: State, st2: State)
    requires Inv(topo, st) && DistinctAddresses(topo)
    requires s < |topo| && r < |topo| && r != s && n in topo[s] && n in topo[r]
    requires net in Announcement(st.tables[s], n) && !Known(st.tables[r], net)
    ensures st1 == After(topo, st, Announce(s, n))
    ensures Enabled(topo, st1, Receive(r, AnnouncedFrame(topo, st, s, n)))
    ensures st2 == After(topo, st1, Receive(r, AnnouncedFrame(topo, st, s, n)))
    ensures Inv(topo, st2) && Missing(topo, st2.tables) < Missing(topo, st.tables)
    ensures Acyclic(topo) && Right(topo, st) ==> Right(topo, st2)
  {
    var f := AnnouncedFrame(topo, st, s, n);
    st1 := After(topo, st, Announce(s, n));
    AnnouncementIsSent(topo, st, s, n);
    st2 := After(topo, st1, Receive(r, f));
    StepKeepsInv(topo, st, Announce(s, n));
    StepKeepsInv(topo, st1, Receive(r, f));
    ListenerLearns(topo, st, s, n, r, net);
    if Acyclic(topo) && Right(topo, st) {
      StepKeepsRight(topo, st, Announce(s, n));
      StepKeepsRight(topo, st1, Receive(r, f));
    }
    LessMissing(topo, st.tables, st2.tables, r, net);
  }

  lemma LearnAllKnows(t: Table, snet: Net, nets: seq<Net>, mac: Mac, net: Net)
    requires Known(t, snet) && net in nets
    ensures Known(LearnAll(t, snet, nets, mac), net)
  {
    LearnAllExtends(t, snet, nets, mac);
    assert net in AsMap(LearnAll(t, snet, nets, mac));
  }

  lemma Prepend(topo: Topology, st: State, e: Event, rest: seq<Event>, st': State)
    requires Enabled(topo, st, e) && Reaches(topo, After(topo, st, e), rest, st')
    ensures Reaches(topo, st, [e] + rest, st')
  {
    assert ([e] + rest)[1..] == rest;
  }

  /** From any reachable state, announcements alone complete every table, in at most two events
      for each missing entry. */
  lemma {:induction false} Converges(topo: Topology, st: State) returns (events: seq<Event>, st': State)
    requires Inv(topo, st) && Acyclic(topo) && DistinctAddresses(topo)
    ensures Reaches(topo, st, events, st') && Inv(topo, st') && Complete(topo, st'.tables)
    ensures Right(topo, st) ==> Right(topo, st')
    ensures |events| <= 2 * |Missing(topo, st.tables)|
    decreases Missing(topo, st.tables)
  {
    if Quiet(topo, st.tables) {
      QuietIsComplete(topo, st);
      events, st' := [], st;
    } else {
      var s, n, r :| 0 <= s < |topo| && 0 <= r < |topo| && r != s && n in topo[s] && n in topo[r]
                     && !NothingNew(topo, st.tables, s, n, r);
      var net :| net in Announcement(st.tables[s], n) && !Known(st.tables[r], net);
      var st1, st2 := ExchangeTeaches(topo, st, s, n, r, net);
      SubsetSmaller(Missing(topo, st2.tables), Missing(topo, st.tables));
      var rest;
      rest, st' := Converges(topo, st2);
      var e := Receive(r, AnnouncedFrame(topo, st, s, n));
      Prepend(topo, st1, e, rest, st');
      Prepend(topo, st, Announce(s, n), [e] + rest, st');
      events := [Announce(s, n)] + ([e] + rest);
    }
  }

  lemma SubsetSmaller<T>(a: set<T>, b: set<T>)
    requires a < b
    ensures |a| < |b|
  {
    var x :| x in b && x !in a;
    assert a <= b - {x};
    assert |a| <= |b - {x}| by { SubsetNotLarger(a, b - {x}); }
  }

  lemma {:induction false} SubsetNotLarger<T>(a: set<T>, b: set<T>)
    requires a <= b
    ensures |a| <= |b|
    decreases a
  {
    if x :| x in a {
      SubsetNotLarger(a - {x}, b - {x});
    }
  }
}
