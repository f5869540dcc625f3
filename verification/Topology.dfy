/** An internetwork: networks joined by routers. */
module Topology {
  import opened Octets

  /** For each router, the networks it is directly connected to and its address on each. */
  type Topology = seq<map<Net, Mac>>

  /** One step of a walk: through `router`, onto `net`. */
  datatype Hop = Hop(router: nat, net: Net)

  /** `hops` leads from network `a` to network `b` without going through router `r`. */
  predicate Walk(topo: Topology, r: nat, a: Net, hops: seq<Hop>, b: Net)
    decreases |hops|
  {
    if hops == [] then a == b
    else
      var h := hops[0];
      h.router < |topo| && h.router != r && a in topo[h.router] && h.net in topo[h.router]
      && Walk(topo, r, h.net, hops[1..], b)
  }

  /** Network `b` can be reached from network `a` without going through router `r`:
      seen from `r`, they lie on the same side. */
  ghost predicate SameSide(topo: Topology, r: nat, a: Net, b: Net) {
    exists hops :: Walk(topo, r, a, hops, b)
  }

  /** Clause 4.2 of ANSI/ASHRAE 135: one message path between any two networks. */
  ghost predicate Acyclic(topo: Topology) {
    forall r, p, q {:trigger SameSide(topo, r, p, q)} ::
      0 <= r < |topo| && p in topo[r] && q in topo[r] && SameSide(topo, r, p, q) ==> p == q
  }

  lemma SameSideRefl(topo: Topology, r: nat, a: Net)
    ensures SameSide(topo, r, a, a)
  {
    assert Walk(topo, r, a, [], a);
  }

  lemma {:induction false} WalkConcat(topo: Topology, r: nat, a: Net, s: seq<Hop>, b: Net, t: seq<Hop>, c: Net)
    requires Walk(topo, r, a, s, b) && Walk(topo, r, b, t, c)
    ensures Walk(topo, r, a, s + t, c)
    decreases |s|
  {
    if s == [] {
      assert s + t == t;
    } else {
      WalkConcat(topo, r, s[0].net, s[1..], b, t, c);
      assert (s + t)[1..] == s[1..] + t;
    }
  }

  lemma SameSideTrans(topo: Topology, r: nat, a: Net, b: Net, c: Net)
    requires SameSide(topo, r, a, b) && SameSide(topo, r, b, c)
    ensures SameSide(topo, r, a, c)
  {
    var s :| Walk(topo, r, a, s, b);
    var t :| Walk(topo, r, b, t, c);
    WalkConcat(topo, r, a, s, b, t, c);
  }

  /** Two networks of one router are on the same side of every other router. */
  lemma Adjacent(topo: Topology, r: nat, x: nat, a: Net, b: Net)
    requires x < |topo| && x != r && a in topo[x] && b in topo[x]
    ensures SameSide(topo, r, a, b)
  {
    assert Walk(topo, r, b, [], b);
    assert [Hop(x, b)][1..] == [];
    assert Walk(topo, r, a, [Hop(x, b)], b);
  }

  lemma {:induction false} WalkBack(topo: Topology, r: nat, a: Net, hops: seq<Hop>, b: Net)
    requires Walk(topo, r, a, hops, b)
    ensures SameSide(topo, r, b, a)
    decreases |hops|
  {
    if hops == [] {
      SameSideRefl(topo, r, a);
    } else {
      WalkBack(topo, r, hops[0].net, hops[1..], b);
      Adjacent(topo, r, hops[0].router, hops[0].net, a);
      SameSideTrans(topo, r, b, hops[0].net, a);
    }
  }

  lemma SameSideSym(topo: Topology, r: nat, a: Net, b: Net)
    requires SameSide(topo, r, a, b)
    ensures SameSide(topo, r, b, a)
  {
    var hops :| Walk(topo, r, a, hops, b);
    WalkBack(topo, r, a, hops, b);
  }

  function RoutersOf(hops: seq<Hop>): set<nat> {
    set h | h in hops :: h.router
  }

  lemma {:induction false} Avoids(topo: Topology, r: nat, a: Net, hops: seq<Hop>, b: Net, x: nat)
    requires Walk(topo, r, a, hops, b) && x !in RoutersOf(hops)
    ensures Walk(topo, x, a, hops, b)
    decreases |hops|
  {
    if hops != [] {
      assert hops[0] in hops;
      Avoids(topo, r, hops[0].net, hops[1..], b, x);
    }
  }

  lemma {:induction false} Onwards(topo: Topology, r: nat, a: Net, hops: seq<Hop>, b: Net, i: nat)
      returns (d: Net, tail: seq<Hop>)
    requires i < |hops| && Walk(topo, r, a, hops, b)
    ensures hops[i].router < |topo| && d in topo[hops[i].router]
    ensures |tail| < |hops| && Walk(topo, r, d, tail, b) && RoutersOf(tail) <= RoutersOf(hops)
    decreases i
  {
    if i == 0 {
      d, tail := hops[0].net, hops[1..];
    } else {
      d, tail := Onwards(topo, r, hops[0].net, hops[1..], b, i - 1);
    }
  }

  /** The part of a walk, from a network of router `x`, after it last passes through `x`. */
  lemma {:induction false} LastExit(topo: Topology, r: nat, a: Net, hops: seq<Hop>, b: Net, x: nat)
      returns (c: Net, rest: seq<Hop>)
    requires x < |topo| && a in topo[x] && Walk(topo, r, a, hops, b)
    ensures |rest| <= |hops| && c in topo[x] && RoutersOf(rest) <= RoutersOf(hops) - {x}
    ensures Walk(topo, r, c, rest, b) && Walk(topo, x, c, rest, b)
    decreases |hops|
  {
    if i :| 0 <= i < |hops| && hops[i].router == x {
      var d, tail := Onwards(topo, r, a, hops, b, i);
      c, rest := LastExit(topo, r, d, tail, b, x);
    } else {
      c, rest := a, hops;
      Avoids(topo, r, a, hops, b, x);
    }
  }

  /** A walk that never stays on a network and never returns to a router. */
  predicate SimpleWalk(topo: Topology, a: Net, hops: seq<Hop>, b: Net)
    decreases |hops|
  {
    if hops == [] then a == b
    else
      var h := hops[0];
      && h.router < |topo| && a in topo[h.router] && h.net in topo[h.router] && a != h.net
      && Walk(topo, h.router, h.net, hops[1..], b)
      && SimpleWalk(topo, h.net, hops[1..], b)
  }

  /** Any walk contains a simple one. */
  lemma {:induction false} Simplify(topo: Topology, r: nat, a: Net, hops: seq<Hop>, b: Net) returns (simple: seq<Hop>)
    requires Walk(topo, r, a, hops, b)
    ensures SimpleWalk(topo, a, simple, b) && Walk(topo, r, a, simple, b)
    ensures RoutersOf(simple) <= RoutersOf(hops)
    decreases |hops|
  {
    if hops == [] {
      simple := [];
    } else {
      var x := hops[0].router;
      assert hops[0] in hops;
      var c, rest := LastExit(topo, r, hops[0].net, hops[1..], b, x);
      assert RoutersOf(hops[1..]) <= RoutersOf(hops);
      if c == a {
        simple := Simplify(topo, r, a, rest, b);
      } else {
        var tail := Simplify(topo, r, c, rest, b);
        Avoids(topo, r, c, tail, b, x);
        simple := [Hop(x, c)] + tail;
        assert simple[1..] == tail && RoutersOf(simple) == {x} + RoutersOf(tail);
      }
    }
  }

  /** A walk that goes through router `x` reaches one of its networks first. */
  lemma {:induction false} Visits(topo: Topology, r: nat, a: Net, hops: seq<Hop>, b: Net, x: nat) returns (e: Net)
    requires Walk(topo, r, a, hops, b) && x in RoutersOf(hops)
    ensures x < |topo| && e in topo[x] && SameSide(topo, r, a, e)
    decreases |hops|
  {
    if hops[0].router == x {
      e := a;
      SameSideRefl(topo, r, a);
    } else {
      e := Visits(topo, r, hops[0].net, hops[1..], b, x);
      Adjacent(topo, r, hops[0].router, a, hops[0].net);
      SameSideTrans(topo, r, a, hops[0].net, e);
    }
  }
}
