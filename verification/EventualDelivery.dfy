/** Delivery does not hang on one schedule: after any run with enough rounds of announcements in which nothing is
    relayed back, directed messages arrive as their hop counts allow. And there are such runs, from every state. */
module EventualDelivery {
  import opened Octets
  import opened Topology
  import opened Internetwork
  import opened Convergence
  import opened NextHops
  import opened Completion
  import opened TreeDelivery
  import opened Rounds

  function Together(rounds: seq<seq<Event>>): seq<Event> {
    if rounds == [] then [] else rounds[0] + Together(rounds[1..])
  }

  /** One round fewer than there are routers, whatever else happens in them as long as nothing is relayed back:
      every message that a station can send has a way to its network, and is delivered along it exactly as its hop
      count allows. */
  lemma RoundsDeliver(topo: Topology, st: State, rounds: seq<seq<Event>>, st': State, f: Frame) returns (hops: seq<Hop>)
    requires Right(topo, st) && Acyclic(topo) && DistinctAddresses(topo) && NamedStations(topo)
    requires ManyRounds(topo, st, rounds, st') && StraightRun(topo, st, Together(rounds), st')
    requires |rounds| + 1 >= |topo| && Sendable(topo, f)
    ensures Ready(topo, st') && GoesBy(topo, st', f, hops)
  {
    NextHopsAreRight(topo, st, Together(rounds), st');
    RoundsComplete(topo, st, rounds, st');
    hops := SendableGoes(topo, st', f);
  }

  // ----- there are such rounds -----

  /** Router `r` is to hear from router `s` on network `n`. */
  datatype Link = Link(s: nat, n: Net, r: nat)

  ghost predicate IsLink(topo: Topology, k: Link) {
    k.s < |topo| && k.r < |topo| && k.r != k.s && k.n in topo[k.s] && k.n in topo[k.r]
  }

  ghost function Links(topo: Topology): set<Link> {
    set s: nat, r: nat, n: Net | s < |topo| && r < |topo| && n in topo[s] && n in topo[r] && r != s :: Link(s, n, r)
  }

  ghost predicate HeardAll(topo: Topology, st: State, events: seq<Event>, links: set<Link>) {
    forall k {:trigger k in links} :: k in links ==> Heard(topo, st, events, k.s, k.n, k.r)
  }

  /** What is heard in the rest of a run is heard in the run. */
  lemma HeardLater(topo: Topology, st: State, e: Event, rest: seq<Event>, s: nat, n: Net, r: nat)
    requires Enabled(topo, st, e) && Heard(topo, After(topo, st, e), rest, s, n, r)
    ensures Heard(topo, st, [e] + rest, s, n, r)
  {
    var u, all := After(topo, st, e), [e] + rest;
    var i: nat, j: nat :|
      && i < j < |rest| && rest[i] == Announce(s, n) && |StateAt(topo, u, rest, i).tables| == |topo|
      && rest[j] == Receive(r, AnnouncedFrame(topo, StateAt(topo, u, rest, i), s, n));
    assert all[1..] == rest && all[i + 1] == rest[i] && all[j + 1] == rest[j];
    assert StateAt(topo, st, all, i + 1) == StateAt(topo, u, rest, i);
  }

  lemma StraightPrepend(topo: Topology, st: State, e: Event, rest: seq<Event>, st': State)
    requires Enabled(topo, st, e) && Straight(topo, st, e) && StraightRun(topo, After(topo, st, e), rest, st')
    ensures StraightRun(topo, st, [e] + rest, st')
  {
    assert ([e] + rest)[1..] == rest;
  }

  /** Router `s` announces on `n` and router `r` takes it: both keep the invariant, and nothing is relayed back. */
  lemma Exchange(topo: Topology, st: State, k: Link) returns (e: Event, st1: State, st2: State)
    requires Inv(topo, st) && DistinctAddresses(topo) && IsLink(topo, k)
    ensures Enabled(topo, st, Announce(k.s, k.n)) && st1 == After(topo, st, Announce(k.s, k.n))
    ensures e == Receive(k.r, AnnouncedFrame(topo, st, k.s, k.n)) && Enabled(topo, st1, e) && Straight(topo, st1, e)
    ensures st2 == After(topo, st1, e) && Inv(topo, st2)
  {
    AnnouncementIsSent(topo, st, k.s, k.n);
    e := Receive(k.r, AnnouncedFrame(topo, st, k.s, k.n));
    st1 := After(topo, st, Announce(k.s, k.n));
    st2 := After(topo, st1, e);
    StepKeepsInv(topo, st, Announce(k.s, k.n));
    StepKeepsInv(topo, st1, e);
  }

  /** The two events of an exchange, at the head of a run. */
  lemma HeardAtOnce(topo: Topology, st: State, k: Link, e: Event, rest: seq<Event>)
    requires |st.tables| == |topo| && IsLink(topo, k) && e == Receive(k.r, AnnouncedFrame(topo, st, k.s, k.n))
    ensures Heard(topo, st, [Announce(k.s, k.n)] + ([e] + rest), k.s, k.n, k.r)
  {
    var all := [Announce(k.s, k.n)] + ([e] + rest);
    assert all[0] == Announce(k.s, k.n) && all[1] == e && StateAt(topo, st, all, 0) == st;
  }

  lemma {:induction false} HearAll(topo: Topology, st: State, links: set<Link>) returns (events: seq<Event>, st': State)
    requires Inv(topo, st) && DistinctAddresses(topo) && forall k :: k in links ==> IsLink(topo, k)
    ensures StraightRun(topo, st, events, st') && HeardAll(topo, st, events, links) && Inv(topo, st')
    ensures |events| == 2 * |links|
    decreases links
  {
    events, st' := [], st;
    if k :| k in links {
      var e, st1, st2 := Exchange(topo, st, k);
      var rest;
      rest, st' := HearAll(topo, st2, links - {k});
      events := [Announce(k.s, k.n)] + ([e] + rest);
      StraightPrepend(topo, st1, e, rest, st');
      StraightPrepend(topo, st, Announce(k.s, k.n), [e] + rest, st');
      forall q | q in links ensures Heard(topo, st, events, q.s, q.n, q.r) {
        if q == k {
          HeardAtOnce(topo, st, k, e, rest);
        } else {
          assert q in links - {k};
          HeardLater(topo, st1, e, rest, q.s, q.n, q.r);
          HeardLater(topo, st, Announce(k.s, k.n), [e] + rest, q.s, q.n, q.r);
        }
      }
    }
  }

  lemma {:induction false} StraightReaches(topo: Topology, st: State, events: seq<Event>, st': State)
    requires StraightRun(topo, st, events, st')
    ensures Reaches(topo, st, events, st')
    decreases |events|
  {
    if events != [] { StraightReaches(topo, After(topo, st, events[0]), events[1..], st'); }
  }

  /** From every state that a run can reach there is a round, of two events for each pair of neighbours. */
  lemma RoundExists(topo: Topology, st: State) returns (events: seq<Event>, st': State)
    requires Inv(topo, st) && DistinctAddresses(topo)
    ensures Round(topo, st, events, st') && StraightRun(topo, st, events, st') && Inv(topo, st')
    ensures |events| == 2 * |Links(topo)|
  {
    events, st' := HearAll(topo, st, Links(topo));
    StraightReaches(topo, st, events, st');
    forall s, n, r {:trigger Heard(topo, st, events, s, n, r)}
      | 0 <= s < |topo| && 0 <= r < |topo| && r != s && n in topo[s] && n in topo[r]
      ensures Heard(topo, st, events, s, n, r)
    {
      assert Link(s, n, r) in Links(topo);
    }
  }

  lemma SplitHead<T>(es: seq<T>, fs: seq<T>)
    requires es != []
    ensures es + fs == [es[0]] + (es[1..] + fs)
  {
  }

  lemma {:induction false} StraightConcat(topo: Topology, a: State, es: seq<Event>, b: State, fs: seq<Event>, c: State)
    requires StraightRun(topo, a, es, b) && StraightRun(topo, b, fs, c)
    ensures StraightRun(topo, a, es + fs, c)
    decreases |es|
  {
    if es == [] {
      assert es + fs == fs;
    } else {
      var e, rest := es[0], es[1..];
      StraightConcat(topo, After(topo, a, e), rest, b, fs, c);
      var more := rest + fs;
      StraightPrepend(topo, a, e, more, c);
      SplitHead(es, fs);
    }
  }

  /** So there are as many rounds as wanted, in one run that relays nothing back. */
  lemma {:induction false} RoundsExist(topo: Topology, st: State, n: nat) returns (rounds: seq<seq<Event>>, st': State)
    requires Inv(topo, st) && DistinctAddresses(topo)
    ensures |rounds| == n && ManyRounds(topo, st, rounds, st') && StraightRun(topo, st, Together(rounds), st')
    decreases n
  {
    rounds, st' := [], st;
    if n > 0 {
      var round, next := RoundExists(topo, st);
      ReachesAt(topo, st, round, next, |round|);
      assert round[|round|..] == [];
      var more;
      more, st' := RoundsExist(topo, next, n - 1);
      rounds := [round] + more;
      assert rounds[1..] == more;
      StraightConcat(topo, st, round, next, Together(more), st');
    }
  }
}
