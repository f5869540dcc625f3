/** The routing table as the router keeps it: a singly linked list of ports, each
    owning a singly linked list of learned networks, grown in place. */
module LinkedTables {
  import opened Octets
  import opened RoutingTable

  /** `struct _dnet`: a port of the router, or a network learned behind one. */
  class Dnet {
    var net: Net
    var mac: Mac
    var enabled: bool
    var dnets: Dnet?
    var next: Dnet?
    /** Where the node sits: its port's position, and 0 for the port itself or 1 + its place in
        the port's list. Each node having one place is what keeps the lists acyclic and disjoint. */
    ghost var row: nat
    ghost var column: nat

    constructor (net: Net, mac: Mac, ghost row: nat, ghost column: nat)
      ensures this.net == net && this.mac == mac && enabled && dnets == null && next == null
      ensures this.row == row && this.column == column
    {
      this.net, this.mac, this.enabled := net, mac, true;
      this.row, this.column := row, column;
      dnets, next := null, null;
    }
  }

  ghost function NodeAt(s: seq<Dnet>, k: nat): Dnet? {
    if k < |s| then s[k] else null
  }

  ghost predicate Linked(chain: seq<Dnet>)
    reads chain
  {
    forall j :: 0 <= j < |chain| ==> chain[j].next == NodeAt(chain, j + 1)
  }

  class LinkedTable {
    var head: Dnet?
    /** The table the nodes represent. */
    ghost var table: Table
    /** The nodes, in list order: the ports, and for each port its learned networks. */
    ghost var ports: seq<Dnet>
    ghost var lists: seq<seq<Dnet>>
    ghost var repr: set<Dnet>

    ghost predicate PortOk(i: nat)
      reads this, repr
    {
      && i < |table| && i < |ports| && i < |lists| && ports[i] in repr
      && var p := ports[i];
      && p.row == i && p.column == 0
      && p.next == NodeAt(ports, i + 1)
      && p.dnets == NodeAt(lists[i], 0)
      && p.net == table[i].net && p.mac == table[i].mac
      && |table[i].dnets| == |lists[i]|
    }

    ghost predicate RouteOk(i: nat, j: nat)
      reads this, repr
    {
      && i < |table| && i < |lists| && j < |lists[i]| && |table[i].dnets| == |lists[i]|
      && lists[i][j] in repr
      && var d := lists[i][j];
      && d.row == i && d.column == j + 1
      && d.next == NodeAt(lists[i], j + 1)
      && table[i].dnets[j] == Route(d.net, d.mac)
    }

    ghost predicate Valid()
      reads this, repr
    {
      && |table| == |ports| == |lists|
      && head == NodeAt(ports, 0)
      && (forall i {:trigger PortOk(i)} :: 0 <= i < |ports| ==> PortOk(i))
      && (forall i, j {:trigger RouteOk(i, j)} :: 0 <= i < |lists| && 0 <= j < |lists[i]| ==> RouteOk(i, j))
    }

    lemma RowFacts(i: nat)
      requires Valid() && i < |lists|
      ensures Linked(lists[i]) && ports[i].dnets == NodeAt(lists[i], 0) && ports[i].next == NodeAt(ports, i + 1)
      ensures NoDup(lists[i]) && forall x :: x in lists[i] ==> x.row == i && x.column > 0
    {
      assert PortOk(i);
      forall j | 0 <= j < |lists[i]|
        ensures lists[i][j].row == i && lists[i][j].column == j + 1 && lists[i][j].next == NodeAt(lists[i], j + 1)
      {
        assert RouteOk(i, j);
      }
    }

    lemma PortFacts()
      requires Valid()
      ensures Linked(ports) && NoDup(ports) && forall x :: x in ports ==> x.column == 0
    {
      forall i | 0 <= i < |ports|
        ensures ports[i].row == i && ports[i].column == 0 && ports[i].next == NodeAt(ports, i + 1)
      {
        assert PortOk(i);
      }
    }

    constructor ()
      ensures Valid() && fresh(repr) && table == []
    {
      head := null;
      table, ports, lists, repr := [], [], [], {};
    }

    /** `dnet_find`: the first port that lists `net`; the address is replaced by that of the
        next router when the network was learned, and left alone otherwise. */
    method DnetFind(net: Net, given: Mac) returns (port: Dnet?, addr: Mac)
      requires Valid()
      ensures port == NodeAt(ports, Find(table, net))
      ensures addr == if Known(table, net) && Resolve(table, net).hop.Through?
                      then Resolve(table, net).hop.mac else given
    {
      port, addr := head, given;
      ghost var i := 0;
      while port != null
        invariant 0 <= i <= |ports|
        invariant port == NodeAt(ports, i)
        invariant forall j :: 0 <= j < i ==> net !in table[j].Nets()
        invariant addr == given
        decreases |ports| - i
      {
        assert PortOk(i);
        if net == port.net {
          FindIs(table, net, i);
          return;
        }
        var dnet := port.dnets;
        ghost var j := 0;
        ghost var ds := table[i].dnets;
        while dnet != null
          invariant 0 <= j <= |ds|
          invariant dnet == NodeAt(lists[i], j)
          invariant net !in RouteNets(ds)[..j]
          decreases |ds| - j
        {
          assert RouteOk(i, j);
          if net == dnet.net {
            assert RouteNets(ds)[j] == net && table[i].Nets()[j + 1] == net;
            FindIs(table, net, i);
            RouteMacAt(ds, net, j);
            addr := dnet.mac;
            return;
          }
          dnet := dnet.next;
          j := j + 1;
        }
        assert table[i].Nets() == [port.net] + RouteNets(ds)[..j];
        port := port.next;
        i := i + 1;
      }
      FindIs(table, net, i);
    }

    /** `port_find`: looks among the directly connected networks only. */
    method PortFind(snet: Net) returns (found: bool)
      requires Valid()
      ensures found == HasPort(table, snet)
    {
      var port := head;
      ghost var i := 0;
      while port != null
        invariant 0 <= i <= |ports|
        invariant port == NodeAt(ports, i)
        invariant forall j :: 0 <= j < i ==> table[j].net != snet
        decreases |ports| - i
      {
        assert PortOk(i);
        if port.net == snet {
          return true;
        }
        port := port.next;
        i := i + 1;
      }
      return false;
    }

    /** `port_add`: a new port goes to the end of the list. */
    method PortAdd(snet: Net, mac: Mac)
      requires Valid()
      modifies this, repr
      ensures Valid() && fresh(repr - old(repr))
      ensures table == RoutingTable.PortAdd(old(table), snet, mac)
    {
      var port, _ := DnetFind(snet, []);
      if port == null {
        var last := head;
        ghost var i := 0;
        while last != null && last.next != null
          invariant 0 <= i <= |ports| && last == NodeAt(ports, i)
          invariant ports != [] ==> i < |ports|
          decreases |ports| - i
        {
          assert PortOk(i);
          last := last.next;
          i := i + 1;
        }
        assert ports != [] ==> PortOk(i);
        AppendPort(last, snet, mac);
      }
    }

    /** Links a new port behind the last one, or as the head of an empty table. */
    method AppendPort(last: Dnet?, snet: Net, mac: Mac)
      requires Valid()
      requires last == if ports == [] then null else ports[|ports| - 1]
      modifies this, repr
      ensures Valid() && fresh(repr - old(repr))
      ensures table == old(table) + [Port(snet, mac, [])]
    {
      var node := new Dnet(snet, mac, |ports|, 0);
      if last == null {
        head := node;
      } else {
        assert PortOk(|ports| - 1);
        last.next := node;
      }
      ports, lists, repr := ports + [node], lists + [[]], repr + {node};
      table := table + [Port(snet, mac, [])];
      forall i | 0 <= i < |ports| ensures PortOk(i) {
        if i < |ports| - 1 { assert old(PortOk(i)); }
      }
      forall i, j | 0 <= i < |lists| && 0 <= j < |lists[i]| ensures RouteOk(i, j) {
        assert old(RouteOk(i, j));
      }
    }

    /** `dnet_add`: the first route to a network wins; a new one goes to the end of its port's list. */
    method DnetAdd(snet: Net, net: Net, mac: Mac)
      requires Valid()
      modifies this, repr
      ensures Valid() && fresh(repr - old(repr)) && ports == old(ports)
      ensures table == RoutingTable.DnetAdd(old(table), snet, net, mac)
    {
      var dnet, _ := DnetFind(net, []);
      if dnet != null {
        return;
      }
      var port, _ := DnetFind(snet, []);
      if port == null {
        return;
      }
      ghost var i := Find(table, snet);
      assert PortOk(i);
      var there, prior := LastRoute(i, port, net);
      if !there {
        AppendRoute(i, port, prior, net, mac);
      }
    }

    /** The walk along the list of a port: its last node, unless the network is met on the way. */
    method LastRoute(ghost i: nat, port: Dnet, net: Net) returns (there: bool, prior: Dnet?)
      requires Valid() && i < |ports| && port == ports[i]
      ensures there ==> net in table[i].Nets()
      ensures !there ==> prior == if lists[i] == [] then null else lists[i][|lists[i]| - 1]
    {
      assert PortOk(i);
      var dnet := port.dnets;
      prior := null;
      ghost var j := 0;
      while dnet != null
        invariant 0 <= j <= |lists[i]|
        invariant dnet == NodeAt(lists[i], j)
        invariant prior == if j == 0 then null else lists[i][j - 1]
        decreases |lists[i]| - j
      {
        assert RouteOk(i, j);
        if dnet.net == net {
          assert table[i].Nets()[j + 1] == net;
          return true, prior;
        }
        prior := dnet;
        dnet := dnet.next;
        j := j + 1;
      }
      return false, prior;
    }

    /** Links a new node behind `prior`, or as the first one of an empty list. */
    method AppendRoute(ghost i: nat, port: Dnet, prior: Dnet?, net: Net, mac: Mac)
      requires Valid() && i < |ports| && port == ports[i]
      requires prior == if lists[i] == [] then null else lists[i][|lists[i]| - 1]
      modifies this, repr
      ensures Valid() && fresh(repr - old(repr)) && ports == old(ports)
      ensures table == old(table)[i := old(table)[i].(dnets := old(table)[i].dnets + [Route(net, mac)])]
    {
      assert PortOk(i);
      var node := new Dnet(net, mac, i, |lists[i]| + 1);
      if prior == null {
        port.dnets := node;
      } else {
        assert RouteOk(i, |lists[i]| - 1);
        prior.next := node;
      }
      lists, repr := lists[i := lists[i] + [node]], repr + {node};
      table := table[i := table[i].(dnets := table[i].dnets + [Route(net, mac)])];
      forall k | 0 <= k < |ports| ensures PortOk(k) {
        assert old(PortOk(k));
      }
      forall k, j | 0 <= k < |lists| && 0 <= j < |lists[k]| ensures RouteOk(k, j) {
        if lists[k][j] != node { assert old(RouteOk(k, j)); }
      }
    }
  }

  /** `cleanup`: the nodes in the order they are freed; every node of the table is freed, and freed once. */
  method Cleanup(t: LinkedTable) returns (freed: seq<Dnet>)
    requires t.Valid()
    ensures NoDup(freed)
    ensures forall x :: x in freed <==> x in t.ports || exists i :: 0 <= i < |t.lists| && x in t.lists[i]
  {
    freed := [];
    var port := t.head;
    ghost var i := 0;
    while port != null
      invariant 0 <= i <= |t.ports| && port == NodeAt(t.ports, i)
      invariant NoDup(freed) && forall x :: x in freed ==> x.row < i && x.column > 0
      invariant forall x :: x in freed <==> exists k :: 0 <= k < i && x in t.lists[k]
      decreases |t.ports| - i
    {
      t.RowFacts(i);
      var part := DnetCleanup(port.dnets, t.lists[i]);
      NoDupConcat(freed, part);
      freed := freed + part;
      port := port.next;
      i := i + 1;
    }
    t.PortFacts();
    var last := DnetCleanup(t.head, t.ports);
    NoDupConcat(freed, last);
    freed := freed + last;
  }

  /** `dnet_cleanup`: frees a chain from the front, reading each link before its node goes. */
  method DnetCleanup(dnets: Dnet?, ghost chain: seq<Dnet>) returns (freed: seq<Dnet>)
    requires dnets == NodeAt(chain, 0)
    requires Linked(chain)
    ensures freed == chain
  {
    freed := [];
    var dnet, rest := dnets, dnets;
    while dnet != null
      invariant |freed| <= |chain| && freed == chain[..|freed|]
      invariant dnet == rest == NodeAt(chain, |freed|)
      decreases |chain| - |freed|
    {
      dnet := dnet.next;
      freed := freed + [rest];
      rest := dnet;
    }
  }

  lemma {:induction false} RouteMacAt(ds: seq<Route>, net: Net, j: nat)
    requires j < |ds| && ds[j].net == net && net !in RouteNets(ds)[..j]
    ensures net in RouteNets(ds) && RouteMac(ds, net) == ds[j].mac
  {
    assert RouteNets(ds)[j] == net;
    if j > 0 {
      assert RouteNets(ds)[..j][0] == ds[0].net;
      assert RouteNets(ds) == [ds[0].net] + RouteNets(ds[1..]);
      assert RouteNets(ds)[..j] == [ds[0].net] + RouteNets(ds[1..])[..j - 1];
      RouteMacAt(ds[1..], net, j - 1);
    }
  }
}
