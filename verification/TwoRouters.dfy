/** A run of two routers that comes to rest, step by step: it meets the premises of the convergence
    results, which are therefore about something. */
module TwoRouters {
  import opened Common
  import opened Graphs
  import opened Dijkstra
  import opened LinkState
  import opened Flooding
  import opened Forwarding
  import opened GraphDrawing
  import opened RoutingTable
  import opened Convergence
  import opened SmallNetworks

  const OWNER: Owner := map[1 := 1, 2 := 2]

  function Peer(x: U32): U32 { if x == 1 then 2 else 1 }

  function Pair(a: Router, b: Router, flight: multiset<Packet>, batch: (int, int), base: (int, int)): Net {
    Net(map[1 := a, 2 := b], flight, map[1 := batch.0, 2 := batch.1], map[1 := base.0, 2 := base.1])
  }

  function Start(): Net { Pair(At(1, 2, 0, false, []), At(2, 1, 0, false, []), multiset{}, (0, 0), (0, 0)) }

  function First(): Net {
    Pair(At(1, 2, 1, true, []), At(2, 1, 0, false, []), multiset{Copy(1, 2, 1)}, (0, 0), (0, 0))
  }

  function Second(): Net {
    Pair(At(1, 2, 1, true, []), At(2, 1, 1, true, []), multiset{Copy(1, 2, 1), Copy(2, 1, 1)}, (0, 0), (1, 0))
  }

  function Third(): Net {
    Pair(At(1, 2, 2, true, []), At(2, 1, 1, true, []), multiset{Copy(1, 2, 1), Copy(2, 1, 1), Copy(1, 2, 2)},
         (1, 0), (1, 0))
  }

  function Fourth(): Net {
    Pair(At(1, 2, 2, true, []), At(2, 1, 1, true, [Update(1, 2, 1)]), multiset{Copy(2, 1, 1), Copy(1, 2, 2)},
         (1, 0), (1, 0))
  }

  function Fifth(): Net {
    Pair(At(1, 2, 2, true, []), At(2, 1, 1, true, [Update(1, 2, 2)]), multiset{Copy(2, 1, 1)}, (1, 0), (1, 0))
  }

  function Rest(): Net {
    Pair(At(1, 2, 2, true, [Update(2, 1, 1)]), At(2, 1, 1, true, [Update(1, 2, 2)]), multiset{}, (1, 0), (1, 0))
  }

  lemma FirstHears()
    ensures Next(OWNER, Start(), First())
  {
    hide Next;
    Hearing(OWNER, Start(), 1, 2, 0);
    assert Met(Start(), 1, 2, 0) == First();
  }

  lemma SecondHears()
    ensures Next(OWNER, First(), Second())
  {
    hide Next;
    Hearing(OWNER, First(), 2, 1, 0);
    assert Met(First(), 2, 1, 0) == Second();
  }

  lemma FirstRepeats()
    ensures Next(OWNER, Second(), Third())
  {
    hide Next;
    Repeating(OWNER, Second(), 1, 2, 1);
    assert Repeated(Second(), 1, 2, 1) == Third();
  }

  lemma FirstCopyArrives()
    ensures Next(OWNER, Third(), Fourth())
  {
    hide Next;
    assert Absorb([], Update(1, 2, 1)) == [Update(1, 2, 1)];
    Arriving(OWNER, Third(), 2, 1, 1, [], 1);
    assert Taken(Third(), 2, 1, 1, [Update(1, 2, 1)], 1) == Fourth();
  }

  lemma RepeatArrives()
    ensures Next(OWNER, Fourth(), Fifth())
  {
    hide Next;
    assert [Update(1, 2, 1)][0].rid == 1;
    assert Absorb([Update(1, 2, 1)], Update(1, 2, 2)) == [Update(1, 2, 2)];
    Arriving(OWNER, Fourth(), 2, 1, 1, [Update(1, 2, 1)], 2);
    assert Taken(Fourth(), 2, 1, 1, [Update(1, 2, 2)], 2) == Fifth();
  }

  lemma SecondCopyArrives()
    ensures Next(OWNER, Fifth(), Rest())
  {
    hide Next;
    assert Absorb([], Update(2, 1, 1)) == [Update(2, 1, 1)];
    Arriving(OWNER, Fifth(), 1, 2, 2, [], 1);
    assert Taken(Fifth(), 1, 2, 2, [Update(2, 1, 1)], 1) == Rest();
  }

  lemma NothingPending()
    ensures Init(OWNER, Start()) && Quiet(Rest())
  {
    forall o, x | o in Rest().routers && x in Rest().routers ensures Connected(Rest(), o, x) {
      AllConnected(o, x);
    }
  }

  lemma Hears(x: U32)
    requires x in {1, 2}
    ensures Adjacent(Rest().routers[x], Peer(x))
  {
    assert Slot(Rest().routers[x].ifaces, 0, 0);
  }

  lemma AllConnected(x: U32, y: U32)
    requires x in {1, 2} && y in {1, 2}
    ensures Connected(Rest(), x, y)
  {
    if x == y {
      assert Chain(Rest(), x, y, [x]);
    } else {
      Hears(x);
      assert Chain(Rest(), x, y, [x, y]);
    }
  }

  lemma BothOriginate() returns (nets: seq<Net>)
    ensures LeadsTo(OWNER, nets, Third())
  {
    NothingPending();
    hide Next;
    nets := [Start()];
    FirstHears();
    nets := OneMore(OWNER, nets, Start(), First());
    SecondHears();
    nets := OneMore(OWNER, nets, First(), Second());
    FirstRepeats();
    nets := OneMore(OWNER, nets, Second(), Third());
  }

  /** Both routers hear each other and originate, everything arrives, and the network is quiet. */
  lemma TwoRoutersComeToRest() returns (nets: seq<Net>)
    ensures LeadsTo(OWNER, nets, Rest()) && Quiet(Rest())
  {
    hide Next, Quiet, Start, Third, Fourth, Fifth, Rest;
    nets := BothOriginate();
    FirstCopyArrives();
    nets := OneMore(OWNER, nets, Third(), Fourth());
    RepeatArrives();
    nets := OneMore(OWNER, nets, Fourth(), Fifth());
    SecondCopyArrives();
    nets := OneMore(OWNER, nets, Fifth(), Rest());
    NothingPending();
  }

  // ---- the premises of hop-by-hop forwarding

  const INDEX: Index := map[1 := 0, 2 := 1]
  const GRAPH: Matrix := [[0, 1], [1, 0]]
  const SUBNETS: Matrix := [[0, 7], [7, 0]]

  function TableAt(v: nat): Table { if v == 0 then Table([0, 1], [-1, 0]) else Table([1, 0], [1, -1]) }

  /** Each router's hop to the other. */
  function HopsAt(v: nat): seq<int> { if v == 0 then [-1, 1] else [0, -1] }

  lemma TwoLinks(net: Net)
    requires net.routers.Keys == {1, 2}
    requires forall x | x in {1, 2} :: Advertisement(net.routers[x].ifaces) == [Lsa(7, 255, Peer(x))]
    ensures NetHops(net) == {(1, 2), (2, 1)}
  {
    hide Advertisement;
    assert Lsa(7, 255, 2) in Advertisement(net.routers[1].ifaces);
    assert Lsa(7, 255, 1) in Advertisement(net.routers[2].ifaces);
  }

  lemma Links()
    ensures NetHops(Rest()) == {(1, 2), (2, 1)}
  {
    Origination(1, 2, 0, []);
    Origination(2, 1, 0, []);
    hide NetHops, Advertisement;
    TwoLinks(Rest());
  }

  lemma Drawing(x: U32)
    requires x in {1, 2}
    ensures DrawnHops(Rest().routers[x]) == {(1, 2), (2, 1)}
  {
    var nets := TwoRoutersComeToRest();
    QuietRoutersDrawAlike(OWNER, nets, x);
    Links();
  }

  lemma GraphIsDrawn()
    ensures GraphFor(INDEX, 2, {(1, 2), (2, 1)}, GRAPH)
  {
    var hops: set<Hop> := {(1, 2), (2, 1)};
    assert (1, 2) in hops && (2, 1) in hops;
    assert Edges(INDEX, hops) == {(0, 1), (1, 0)};
    assert Painted(Zeros(2), Edges(INDEX, hops), GRAPH);
    assert IsMirror(GRAPH, GRAPH);
  }

  lemma TablesSettle(v: nat)
    requires v < 2
    ensures Settled(GRAPH, 2, v, TableAt(v).dist, TableAt(v).prev)
  {
    assert Tight(GRAPH, 2, TableAt(v).dist, TableAt(v).prev, 1 - v);
  }

  lemma TwoOwnTables(net: Net, g: Matrix, t: Table, u: Table)
    requires net.routers.Keys == {1, 2}
    requires GraphFor(INDEX, 2, DrawnHops(net.routers[1]), g) && GraphFor(INDEX, 2, DrawnHops(net.routers[2]), g)
    requires Settled(g, 2, 0, t.dist, t.prev) && Settled(g, 2, 1, u.dist, u.prev)
    ensures OwnTables(INDEX, 2, net, map[1 := g, 2 := g], map[0 := t, 1 := u])
  {
    hide GraphFor, DrawnHops, Settled;
    assert INDEX[1] == 0 && INDEX[2] == 1;
    assert IsRouter(INDEX, net, 0) && IsRouter(INDEX, net, 1);
  }

  lemma TwoNumbers(net: Net)
    requires net.routers.Keys == {1, 2} && NetHops(net) == {(1, 2), (2, 1)}
    ensures Numbered(INDEX, 2, net)
  {
    hide NetHops;
  }

  /** The quiet state has numbered vertices and settled tables, as the forwarding result wants. */
  lemma PremisesHold()
    ensures Numbered(INDEX, 2, Rest())
    ensures OwnTables(INDEX, 2, Rest(), map[1 := GRAPH, 2 := GRAPH], map[0 := TableAt(0), 1 := TableAt(1)])
  {
    var net := Rest();
    Links();
    TwoNumbers(net);
    Drawing(1);
    Drawing(2);
    GraphIsDrawn();
    TablesSettle(0);
    TablesSettle(1);
    hide GraphFor, DrawnHops, Settled, NetHops, OwnTables, Numbered;
    TwoOwnTables(net, GRAPH, TableAt(0), TableAt(1));
  }

  lemma SubnetIsDrawn(x: U32, s: U16)
    requires x in {1, 2}
    ensures SubnetsFor(INDEX, 2, [Update(x, Peer(x), s)], SUBNETS) && Subnetted([Update(x, Peer(x), s)])
  {
    var u := Update(x, Peer(x), s);
    var d := if x == 1 then [[0, 7], [0, 0]] else [[0, 0], [7, 0]];
    assert u.adv[..0] == [] && [u][..0] == [];
    forall i, j | 0 <= i < 2 && 0 <= j < 2 ensures d[i][j] == DbSubnet(INDEX, [u], i, j) {
      assert RowSubnet(INDEX, u.rid, [], i, j, 0) == 0 && DbSubnet(INDEX, [], i, j) == 0;
    }
    assert IsDbSubnets(INDEX, 2, [u], d);
    assert IsMirror(d, SUBNETS);
  }

  lemma HopsArePicked(v: nat)
    requires v < 2
    ensures Settled(GRAPH, 2, v, TableAt(v).dist, TableAt(v).prev) && Square(SUBNETS, 2)
    ensures FirstHops(GRAPH, SUBNETS, 2, v, TableAt(v), HopsAt(v))
  {
    TablesSettle(v);
    TreePathOfOne(GRAPH, 2, v, TableAt(v), 1 - v);
    forall w | 0 <= w < 2 ensures HopFor(GRAPH, SUBNETS, 2, v, TableAt(v), w, HopsAt(v)[w]) {
      assert w != v ==> w == 1 - v;
    }
  }

  /** And each router has drawn its subnets and picked its hop. */
  lemma HopsHold()
    ensures OwnHops(INDEX, 2, Rest(), map[1 := GRAPH, 2 := GRAPH], map[0 := TableAt(0), 1 := TableAt(1)],
                    map[1 := SUBNETS, 2 := SUBNETS], map[1 := HopsAt(0), 2 := HopsAt(1)])
  {
    SubnetIsDrawn(2, 1);
    SubnetIsDrawn(1, 2);
    HopsArePicked(0);
    HopsArePicked(1);
    hide SubnetsFor, Subnetted, FirstHops, Settled, Square;
    assert INDEX[1] == 0 && INDEX[2] == 1;
  }
}
