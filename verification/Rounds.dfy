/** Completeness is not a matter of luck: however events interleave, tables are complete after so many rounds in
    which every router's announcement reaches its neighbours. */
module Rounds {
  import opened Octets
  import opened RoutingTable
  import opened Routing
  import opened Topology
  import opened Internetwork
  import opened Convergence
  import opened Completion

  /** The state before event number `i` of a run. */
  ghost function StateAt(topo: Topology, st: State, events: seq<Event>, i: nat): State
    decreases i
  {
    if i == 0 || events == [] || !Enabled(topo, st, events[0]) then st
    else StateAt(topo, After(topo, st, events[0]), events[1..], i - 1)
  }

  /** No router forgets or changes an entry. */
  ghost predicate Remembers(topo: Topology, a: State, b: State) {
    && |a.tables| == |b.tables| == |topo|
    && forall x, net :: 0 <= x < |topo| && Known(a.tables[x], net) ==>
         Known(b.tables[x], net) && Resolve(b.tables[x], net) == Resolve(a.tables[x], net)
  }

  lemma StepRemembers(topo: Topology, st: State, e: Event)
    requires Inv(topo, st) && Enabled(topo, st, e)
    ensures Inv(topo, After(topo, st, e)) && Remembers(topo, st, After(topo, st, e))
  {
    StepKeepsInv(topo, st, e);
    if e.Receive? {
      HandleGrows(st.tables[e.router], e.frame.net, e.frame.sender, e.frame.npdu);
    }
  }

  lemma {:induction false} RunRemembers(topo: Topology, st: State, events: seq<Event>, st': State)
    requires Inv(topo, st) && Reaches(topo, st, events, st')
    ensures Inv(topo, st') && Remembers(topo, st, st')
    decreases |events|
  {
    if events != [] {
      var next := After(topo, st, events[0]);
      StepRemembers(topo, st, events[0]);
      RunRemembers(topo, next, events[1..], st');
      RemembersTrans(topo, st, next, st');
    }
  }

  lemma RemembersTrans(topo: Topology, a: State, b: State, c: State)
    requires Remembers(topo, a, b) && Remembers(topo, b, c)
    ensures Remembers(topo, a, c)
  {
  }

  lemma {:induction false} ReachesAt(topo: Topology, st: State, events: seq<Event>, st': State, i: nat)
    requires Reaches(topo, st, events, st') && i <= |events|
    ensures Reaches(topo, st, events[..i], StateAt(topo, st, events, i))
    ensures Reaches(topo, StateAt(topo, st, events, i), events[i..], st')
    decreases i
  {
    if i > 0 {
      ReachesAt(topo, After(topo, st, events[0]), events[1..], st', i - 1);
      assert events[1..][..i - 1] == events[..i][1..] && events[1..][i - 1..] == events[i..];
    } else {
      assert events[0..] == events;
    }
  }

  /** A run cut before event number `i`. */
  lemma CutAt(topo: Topology, st: State, events: seq<Event>, st': State, i: nat)
    requires Inv(topo, st) && Reaches(topo, st, events, st') && i <= |events|
    ensures var u := StateAt(topo, st, events, i);
            Inv(topo, u) && Remembers(topo, st, u) && Reaches(topo, u, events[i..], st')
  {
    ReachesAt(topo, st, events, st', i);
    RunRemembers(topo, st, events[..i], StateAt(topo, st, events, i));
  }

  /** In the run router `s` lists what it reaches on `n`, and router `r` takes that frame off the wire. */
  ghost predicate Heard(topo: Topology, st: State, events: seq<Event>, s: nat, n: Net, r: nat) {
    && s < |topo| && n in topo[s]
    && exists i: nat, j: nat ::
         && i < j < |events| && events[i] == Announce(s, n) && |StateAt(topo, st, events, i).tables| == |topo|
         && events[j] == Receive(r, AnnouncedFrame(topo, StateAt(topo, st, events, i), s, n))
  }

  /** A run, with anything else in it too, in which every router hears every neighbour. */
  ghost predicate Round(topo: Topology, st: State, events: seq<Event>, st': State) {
    && Reaches(topo, st, events, st')
    && forall s, n, r {:trigger Heard(topo, st, events, s, n, r)} ::
         0 <= s < |topo| && 0 <= r < |topo| && r != s && n in topo[s] && n in topo[r] ==>
           Heard(topo, st, events, s, n, r)
  }

  lemma FrameTeaches(topo: Topology, st: State, r: nat, f: Frame, list: seq<Net>, net: Net)
    requires Inv(topo, st) && Enabled(topo, st, Receive(r, f))
    requires f.npdu == ControlMessage(I_AM_ROUTER, EncodeNets(list)) && net in list
    ensures Known(After(topo, st, Receive(r, f)).tables[r], net)
  {
    NetsRoundTrip(list);
    PortResolves(st.tables[r], f.net);
    LearnAllKnows(st.tables[r], f.net, list, f.sender, net);
  }

  /** Whatever a router could announce at the beginning of a round its neighbours know at the end. */
  lemma RoundTeaches(topo: Topology, st: State, events: seq<Event>, st': State, s: nat, n: Net, r: nat, net: Net)
    requires Inv(topo, st) && Round(topo, st, events, st')
    requires s < |topo| && r < |topo| && r != s && n in topo[s] && n in topo[r]
    requires net in Announcement(st.tables[s], n)
    ensures |st'.tables| == |topo| && Known(st'.tables[r], net)
  {
    RunRemembers(topo, st, events, st');
    assert Heard(topo, st, events, s, n, r);
    var i: nat, j: nat :|
      && i < j < |events| && events[i] == Announce(s, n) && |StateAt(topo, st, events, i).tables| == |topo|
      && events[j] == Receive(r, AnnouncedFrame(topo, StateAt(topo, st, events, i), s, n));
    var u, v := StateAt(topo, st, events, i), StateAt(topo, st, events, j);
    CutAt(topo, st, events, st', i);
    CutAt(topo, st, events, st', j);
    SplitHorizon(st.tables[s], n);
    SplitHorizon(u.tables[s], n);
    assert events[j..][0] == events[j];
    FrameTeaches(topo, v, r, AnnouncedFrame(topo, u, s, n), Announcement(u.tables[s], n), net);
    StepRemembers(topo, v, events[j]);
    RunRemembers(topo, After(topo, v, events[j]), events[j..][1..], st');
  }

  /** Every router knows the networks beyond its ports that are no more than `k` routers further. */
  ghost predicate KnowsWithin(topo: Topology, tables: seq<Table>, k: nat)
    requires |tables| == |topo|
  {
    forall r, p, hops, net {:trigger Walk(topo, r, p, hops, net)} ::
      0 <= r < |topo| && p in topo[r] && |hops| <= k && Walk(topo, r, p, hops, net) ==> Known(tables[r], net)
  }

  lemma OneFurther(topo: Topology, st: State, events: seq<Event>, st': State, r: nat, p: Net, hops: seq<Hop>, net: Net)
    requires Inv(topo, st) && Acyclic(topo) && Round(topo, st, events, st')
    requires hops != [] && KnowsWithin(topo, st.tables, |hops| - 1)
    requires r < |topo| && p in topo[r] && Walk(topo, r, p, hops, net)
    ensures |st'.tables| == |topo| && Known(st'.tables[r], net)
  {
    RunRemembers(topo, st, events, st');
    var x := hops[0].router;
    var c, rest := LastExit(topo, r, hops[0].net, hops[1..], net, x);
    if c != p {
      assert RouteSound(topo, x, st.tables[x], net);
      SoundRouteIsExact(topo, x, st.tables[x], net, c);
      SplitHorizon(st.tables[x], p);
      RoundTeaches(topo, st, events, st', x, p, r, net);
    }
  }

  /** A round takes the knowledge of every router one router further. */
  lemma RoundExtends(topo: Topology, st: State, events: seq<Event>, st': State, k: nat)
    requires Inv(topo, st) && Acyclic(topo) && Round(topo, st, events, st') && KnowsWithin(topo, st.tables, k)
    ensures |st'.tables| == |topo| && KnowsWithin(topo, st'.tables, k + 1)
  {
    RunRemembers(topo, st, events, st');
    forall r, p, hops, net {:trigger Walk(topo, r, p, hops, net)}
      | 0 <= r < |topo| && p in topo[r] && |hops| <= k + 1 && Walk(topo, r, p, hops, net)
      ensures Known(st'.tables[r], net)
    {
      if |hops| == k + 1 {
        OneFurther(topo, st, events, st', r, p, hops, net);
      }
    }
  }

  /** One round after the other, each from where the one before ended. */
  ghost predicate ManyRounds(topo: Topology, st: State, rounds: seq<seq<Event>>, st': State)
    decreases |rounds|
  {
    if rounds == [] then st == st'
    else
      var next := StateAt(topo, st, rounds[0], |rounds[0]|);
      Round(topo, st, rounds[0], next) && ManyRounds(topo, next, rounds[1..], st')
  }

  lemma {:induction false} RoundsExtend(topo: Topology, st: State, rounds: seq<seq<Event>>, st': State, k: nat)
    requires Inv(topo, st) && Acyclic(topo) && ManyRounds(topo, st, rounds, st') && KnowsWithin(topo, st.tables, k)
    ensures Inv(topo, st') && KnowsWithin(topo, st'.tables, k + |rounds|)
    decreases |rounds|
  {
    if rounds != [] {
      var next := StateAt(topo, st, rounds[0], |rounds[0]|);
      RoundExtends(topo, st, rounds[0], next, k);
      RunRemembers(topo, st, rounds[0], next);
      RoundsExtend(topo, next, rounds[1..], st', k + 1);
    }
  }

  lemma KnowsItsPorts(topo: Topology, st: State)
    requires Inv(topo, st)
    ensures KnowsWithin(topo, st.tables, 0)
  {
    forall r, p | 0 <= r < |topo| && p in topo[r] ensures Known(st.tables[r], p) {
      PortResolves(st.tables[r], p);
    }
  }

  // ----- how far away a network can be -----

  /** A simple walk uses each router once. */
  lemma {:induction false} SimpleIsShort(topo: Topology, a: Net, hops: seq<Hop>, b: Net)
    requires SimpleWalk(topo, a, hops, b)
    ensures |RoutersOf(hops)| == |hops|
    decreases |hops|
  {
    if hops != [] {
      SimpleIsShort(topo, hops[0].net, hops[1..], b);
      NotOnWalk(topo, hops[0].router, hops[0].net, hops[1..], b);
      RoutersHead(hops);
    }
  }

  lemma RoutersHead(hops: seq<Hop>)
    requires hops != []
    ensures RoutersOf(hops) == {hops[0].router} + RoutersOf(hops[1..])
  {
    assert forall h :: h in hops <==> h == hops[0] || h in hops[1..];
  }

  /** A walk that avoids a router does not go through it, and goes through routers there are. */
  lemma {:induction false} NotOnWalk(topo: Topology, r: nat, a: Net, hops: seq<Hop>, b: Net)
    requires Walk(topo, r, a, hops, b)
    ensures r !in RoutersOf(hops) && forall x :: x in RoutersOf(hops) ==> x < |topo|
    decreases |hops|
  {
    if hops != [] {
      NotOnWalk(topo, r, hops[0].net, hops[1..], b);
      RoutersHead(hops);
    }
  }

  lemma {:induction false} Below(n: nat) returns (all: set<nat>)
    ensures |all| == n && forall x: nat :: x in all <==> x < n
  {
    if n == 0 {
      all := {};
    } else {
      all := Below(n - 1);
      all := all + {n - 1};
    }
  }

  /** What can be reached without a router can be reached by fewer walks than there are routers. */
  lemma ShortWalk(topo: Topology, r: nat, p: Net, net: Net) returns (hops: seq<Hop>)
    requires r < |topo| && SameSide(topo, r, p, net)
    ensures Walk(topo, r, p, hops, net) && |hops| < |topo|
  {
    var walk: seq<Hop> :| Walk(topo, r, p, walk, net);
    hops := Simplify(topo, r, p, walk, net);
    SimpleIsShort(topo, p, hops, net);
    NotOnWalk(topo, r, p, hops, net);
    var all := Below(|topo|);
    SubsetSmaller(RoutersOf(hops), all);
  }

  /** On a tree, from any reachable state and whatever else goes on, all tables are complete after one round fewer
      than there are routers. */
  lemma RoundsComplete(topo: Topology, st: State, rounds: seq<seq<Event>>, st': State)
    requires Inv(topo, st) && Acyclic(topo) && ManyRounds(topo, st, rounds, st') && |rounds| + 1 >= |topo|
    ensures |st'.tables| == |topo| && Complete(topo, st'.tables)
  {
    KnowsItsPorts(topo, st);
    RoundsExtend(topo, st, rounds, st', 0);
    forall r, p, net {:trigger SameSide(topo, r, p, net)} | 0 <= r < |topo| && p in topo[r] && SameSide(topo, r, p, net)
      ensures Known(st'.tables[r], net)
    {
      var hops := ShortWalk(topo, r, p, net);
    }
  }
}
