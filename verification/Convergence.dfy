/** The layers put together: once flooding is quiet, independently built tables agree and packets
    reach every network they are sent to without looping. */
module Convergence {
  import opened Common
  import opened Graphs
  import opened Dijkstra
  import opened LinkState
  import opened Flooding
  import opened Forwarding
  import opened GraphDrawing
  import opened RoutingTable

  // ---- reachability in graphs whose links all weigh one

  ghost predicate Levels(dist: seq<int>, p: seq<int>) {
    forall k | 0 <= k < |p| :: 0 <= p[k] < |dist| && dist[p[k]] == k
  }

  lemma {:induction false} TreePathLevels(g: Matrix, n: nat, src: int, dist: seq<int>, prev: seq<int>, v: int)
    requires Settled(g, n, src, dist, prev) && Unit(g, n) && 0 <= v < n && dist[v] < INFINITY
    ensures var p := TreePath(g, n, src, dist, prev, v); Levels(dist, p) && |p| == dist[v] + 1
    decreases dist[v]
  {
    if v != src {
      assert Tight(g, n, dist, prev, v);
      TreePathLevels(g, n, src, dist, prev, prev[v]);
    }
  }

  lemma {:induction false} Pigeonhole(n: nat, dist: seq<int>, p: seq<int>)
    requires |dist| == n && Levels(dist, p)
    ensures |p| <= n
  {
    var s := VerticesOf(dist, p);
    SubsetSize(s, Below(n));
  }

  ghost function VerticesOf(dist: seq<int>, p: seq<int>): (s: set<int>)
    requires Levels(dist, p)
    ensures |s| == |p| && forall v :: v in s <==> v in p
  {
    if p == [] then {}
    else
      var front, v := p[..|p| - 1], p[|p| - 1];
      assert forall k | 0 <= k < |front| :: front[k] == p[k];
      VerticesOf(dist, front) + {v}
  }

  /** With unit links and fewer than INFINITY vertices, every vertex that has a path is in reach. */
  lemma {:induction false} UnitPathsAreInReach(g: Matrix, n: nat, src: int, t: Table, v: int, p: seq<int>)
    requires Settled(g, n, src, t.dist, t.prev) && Unit(g, n) && n < INFINITY && IsPath(g, src, v, p)
    ensures Reaches(n, t, v) && t.dist[v] < n
    decreases |p|
  {
    if |p| > 1 {
      var u, front := p[|p| - 2], p[..|p| - 1];
      PathInRange(g, n, src, v, p);
      assert Link(g, u, v);
      assert IsPath(g, src, u, front) by {
        assert forall k | 0 <= k < |front| - 1 :: Link(g, p[k], p[k + 1]);
      }
      UnitPathsAreInReach(g, n, src, t, u, front);
    }
    TreePathLevels(g, n, src, t.dist, t.prev, v);
    Pigeonhole(n, t.dist, TreePath(g, n, src, t.dist, t.prev, v));
  }

  // ---- every router draws the same graph

  /** Everything the routers of the network currently advertise. */
  ghost function NetHops(net: Net): set<Hop> {
    set x, a | x in net.routers && a in Advertisement(net.routers[x].ifaces) :: (x, a.rid)
  }

  /** Flooding has come to rest after every router originated with the current neighbours. */
  ghost predicate Quiet(net: Net) {
    && net.flight == multiset{}
    && (forall o | o in net.routers :: FreshSince(net, o))
    && (forall o, x | o in net.routers && x in net.routers :: Connected(net, o, x))
  }

  ghost predicate Connected(net: Net, o: U32, x: U32) { exists c :: Chain(net, o, x, c) }

  lemma QuietRoutersDrawAlike(owner: Owner, nets: seq<Net>, x: U32)
    requires Run(owner, nets) && Quiet(nets[|nets| - 1]) && x in nets[|nets| - 1].routers
    ensures var net := nets[|nets| - 1]; DrawnHops(net.routers[x]) == NetHops(net)
  {
    var net := nets[|nets| - 1];
    var r := net.routers[x];
    RunKeepsInv(owner, nets);
    assert RouterOk(owner, net, x);
    forall h | h in DrawnHops(r) ensures h in NetHops(net) {
      if h in DbHops(r.db) {
        var e, a :| e in r.db && a in e.adv && h == (e.rid, a.rid);
        StoredIsCurrent(owner, nets, x, e);
      }
    }
    forall h | h in NetHops(net) ensures h in DrawnHops(r) {
      var o, a :| o in net.routers && a in Advertisement(net.routers[o].ifaces) && h == (o, a.rid);
      if o != x {
        assert Connected(net, o, x);
        var c :| Chain(net, o, x, c);
        FloodingConverges(owner, nets, o, x, c);
        assert Stored(r.db, o).value in r.db;
      }
    }
  }

  lemma StoredIsCurrent(owner: Owner, nets: seq<Net>, x: U32, e: Lsu)
    requires Run(owner, nets) && Quiet(nets[|nets| - 1]) && x in nets[|nets| - 1].routers
    requires e in nets[|nets| - 1].routers[x].db
    ensures var net := nets[|nets| - 1];
      e.rid in net.routers && e.adv == Advertisement(net.routers[e.rid].ifaces)
  {
    var net := nets[|nets| - 1];
    RunKeepsInv(owner, nets);
    assert RouterOk(owner, net, x);
    assert LsuOk(net, e) && Connected(net, e.rid, x);
    var c :| Chain(net, e.rid, x, c);
    FloodingConverges(owner, nets, e.rid, x, c);
    var i :| 0 <= i < |net.routers[x].db| && net.routers[x].db[i] == e;
    StoredAt(net.routers[x].db, i);
  }

  // ---- forwarding over the drawn graphs

  /** Vertex numbers are distinct and within the matrix, and cover everything advertised. */
  ghost predicate Numbered(idx: Index, n: nat, net: Net) {
    && (forall r | r in idx :: idx[r] < n)
    && (forall r, r' | r in idx && r' in idx && idx[r] == idx[r'] :: r == r')
    && (forall x | x in net.routers :: x in idx)
    && AllKnown(idx, NetHops(net))
  }

  /** A host network hangs off a single router. */
  ghost predicate SingleHomed(net: Net) {
    forall h, h' | h in NetHops(net) && h' in NetHops(net) && h.1 == h'.1 && h.1 !in net.routers :: h.0 == h'.0
  }

  /** Only a neighbour, which is a router, or the one owner of a host network's address is advertised. */
  lemma {:induction false} AdvertisedFrom(owner: Owner, net: Net, x: U32, ifaces: seq<Iface>, a: Lsa)
    requires IfacesOk(owner, net, x, ifaces) && a in Advertisement(ifaces)
    ensures a.rid in net.routers
      || (a.rid == LAN_RID1 && LAN_IP1 in owner && owner[LAN_IP1] == x)
      || (a.rid == LAN_RID2 && LAN_IP2 in owner && owner[LAN_IP2] == x)
  {
    var front, f := ifaces[..|ifaces| - 1], ifaces[|ifaces| - 1];
    if a in Advertisement(front) {
      assert IfacesOk(owner, net, x, front) by {
        forall k, i | Slot(front, k, i) ensures NbrOk(owner, net, x, front[k].nbrs[i]) {
          assert Slot(ifaces, k, i) && NbrOk(owner, net, x, ifaces[k].nbrs[i]);
        }
      }
      AdvertisedFrom(owner, net, x, front, a);
    } else if a in NbrAdv(f.nbrs) {
      var i := NbrAdvFrom(f.nbrs, a);
      assert Slot(ifaces, |front|, i) && NbrOk(owner, net, x, ifaces[|front|].nbrs[i]);
    }
  }

  lemma {:induction false} NbrAdvFrom(nbrs: seq<Nbr>, a: Lsa) returns (i: nat)
    requires a in NbrAdv(nbrs)
    ensures i < |nbrs| && nbrs[i].id == a.rid
  {
    var front := nbrs[..|nbrs| - 1];
    if a in NbrAdv(front) {
      i := NbrAdvFrom(front, a);
    } else {
      i := |front|;
    }
  }

  lemma HostNetworksAreSingleHomed(owner: Owner, nets: seq<Net>)
    requires Run(owner, nets)
    ensures SingleHomed(nets[|nets| - 1])
  {
    var net := nets[|nets| - 1];
    RunKeepsInv(owner, nets);
    forall h, h' | h in NetHops(net) && h' in NetHops(net) && h.1 == h'.1 && h.1 !in net.routers ensures h.0 == h'.0 {
      AdvertiserOwns(owner, net, h);
      AdvertiserOwns(owner, net, h');
    }
  }

  lemma AdvertiserOwns(owner: Owner, net: Net, h: Hop)
    requires Inv(owner, net) && h in NetHops(net) && h.1 !in net.routers
    ensures (h.1 == LAN_RID1 && LAN_IP1 in owner && owner[LAN_IP1] == h.0)
      || (h.1 == LAN_RID2 && LAN_IP2 in owner && owner[LAN_IP2] == h.0)
  {
    var x, a :| x in net.routers && a in Advertisement(net.routers[x].ifaces) && h == (x, a.rid);
    assert RouterOk(owner, net, x);
    AdvertisedFrom(owner, net, x, net.routers[x].ifaces, a);
  }

  /** Each router ran the shortest-path computation on the matrix it drew itself. */
  ghost predicate OwnTables(idx: Index, n: nat, net: Net, graphs: map<U32, Matrix>, tables: map<int, Table>) {
    && (forall x | x in net.routers :: x in graphs && GraphFor(idx, n, DrawnHops(net.routers[x]), graphs[x]))
    && (forall x | x in net.routers && x in idx ::
         idx[x] in tables && Settled(graphs[x], n, idx[x], tables[idx[x]].dist, tables[idx[x]].prev))
    && (forall v | v in tables :: IsRouter(idx, net, v))
  }

  ghost predicate IsRouter(idx: Index, net: Net, v: int) {
    exists x :: x in net.routers && x in idx && idx[x] == v
  }

  lemma AdjacentIsLinked(idx: Index, n: nat, net: Net, g: Matrix, x: U32, y: U32)
    requires Numbered(idx, n, net) && GraphFor(idx, n, NetHops(net), g)
    requires x in net.routers && y in net.routers && Adjacent(net.routers[x], y)
    ensures Link(g, idx[x], idx[y])
  {
    var ifs := net.routers[x].ifaces;
    var k, i :| Slot(ifs, k, i) && ifs[k].nbrs[i].id == y;
    IfaceHopsContain(x, ifs, k);
    OwnHopsAreAdvertised(x, ifs);
    assert (x, y) in NbrHops(x, ifs[k].nbrs);
    assert (x, y) in RowHops(x, Advertisement(ifs));
    AdvertisedIsLinked(idx, n, net, g, (x, y));
  }

  lemma AdvertisedIsLinked(idx: Index, n: nat, net: Net, g: Matrix, h: Hop)
    requires Numbered(idx, n, net) && GraphFor(idx, n, NetHops(net), g) && h in NetHops(net)
    ensures h.0 in idx && h.1 in idx && Link(g, idx[h.0], idx[h.1])
  {
    GraphMeaning(idx, n, NetHops(net), g);
    assert (idx[h.0], idx[h.1]) in Edges(idx, NetHops(net));
    assert EitherWay(Edges(idx, NetHops(net)), idx[h.0], idx[h.1]);
  }

  lemma {:induction false} ChainIsPath(idx: Index, n: nat, net: Net, g: Matrix, o: U32, x: U32, c: seq<U32>)
    returns (p: seq<int>)
    requires Numbered(idx, n, net) && GraphFor(idx, n, NetHops(net), g) && Chain(net, o, x, c)
    ensures IsPath(g, idx[o], idx[x], p)
    decreases |c|
  {
    GraphMeaning(idx, n, NetHops(net), g);
    if |c| == 1 {
      p := [idx[o] as int];
    } else {
      var y, front := c[|c| - 2], c[..|c| - 1];
      assert Adjacent(net.routers[y], x);
      assert Chain(net, o, y, front) by {
        assert forall i | 0 <= i < |front| :: front[i] == c[i];
        assert forall i | 0 <= i < |front| - 1 :: Adjacent(net.routers[c[i]], c[i + 1]);
      }
      p := ChainIsPath(idx, n, net, g, o, y, front);
      AdjacentIsLinked(idx, n, net, g, y, x);
      WeightSnoc(g, idx[o], idx[y], p, idx[x]);
      p := p + [idx[x] as int];
    }
  }

  lemma TablesFormNetwork(owner: Owner, nets: seq<Net>, idx: Index, n: nat,
                          graphs: map<U32, Matrix>, tables: map<int, Table>, g: Matrix)
    requires Run(owner, nets)
    requires var net := nets[|nets| - 1];
      && Quiet(net) && Numbered(idx, n, net)
      && OwnTables(idx, n, net, graphs, tables) && GraphFor(idx, n, NetHops(net), g)
    ensures Network(g, n, tables)
  {
    var net := nets[|nets| - 1];
    GraphMeaning(idx, n, NetHops(net), g);
    HostNetworksAreSingleHomed(owner, nets);
    forall v | v in tables ensures 0 <= v < n && Settled(g, n, v, tables[v].dist, tables[v].prev) {
      assert IsRouter(idx, net, v);
      var x :| x in net.routers && x in idx && idx[x] == v;
      QuietRoutersDrawAlike(owner, nets, x);
      GraphUnique(idx, n, NetHops(net), g, graphs[x]);
    }
    forall v | 0 <= v < n && v !in tables ensures Stub(g, n, v) {
      forall a, b | Link(g, v, a) && Link(g, v, b) ensures a == b {
        var h := HostLink(idx, n, net, g, tables, v, a);
        var h' := HostLink(idx, n, net, g, tables, v, b);
      }
    }
  }

  /** A link of a vertex that is no router comes from a router advertising that host network. */
  lemma HostLink(idx: Index, n: nat, net: Net, g: Matrix, tables: map<int, Table>, v: int, a: int) returns (h: Hop)
    requires Numbered(idx, n, net) && GraphFor(idx, n, NetHops(net), g) && Link(g, v, a) && v !in tables
    requires forall x | x in net.routers && x in idx :: idx[x] in tables
    ensures h in NetHops(net) && h.0 in idx && h.1 in idx && idx[h.0] == a && idx[h.1] == v && h.1 !in net.routers
  {
    GraphMeaning(idx, n, NetHops(net), g);
    assert EitherWay(Edges(idx, NetHops(net)), v, a);
    h :| h in NetHops(net) && h.0 in idx && h.1 in idx
      && ((idx[h.0], idx[h.1]) == (v, a) || (idx[h.0], idx[h.1]) == (a, v));
  }

  /** Main result: in any run, once flooding is quiet, every router's own table forwards packets for
      every router and every advertised host network along a shortest path that repeats no vertex. */
  lemma QuietNetworkForwards(owner: Owner, nets: seq<Net>, idx: Index, n: nat,
                             graphs: map<U32, Matrix>, tables: map<int, Table>, x: U32, dest: U32)
    requires Run(owner, nets)
    requires var net := nets[|nets| - 1];
      && Quiet(net) && Numbered(idx, n, net) && n < INFINITY
      && OwnTables(idx, n, net, graphs, tables)
      && x in net.routers && (dest in net.routers || exists y :: (y, dest) in NetHops(net))
    ensures dest in idx && x in graphs && Network(graphs[x], n, tables) && Reaches(n, tables[idx[x]], idx[dest])
    ensures var r := Route(graphs[x], n, tables, idx[x], idx[dest]);
      && IsPath(graphs[x], idx[x], idx[dest], r) && IsDistance(graphs[x], idx[x], idx[dest], Weight(graphs[x], r))
      && forall i, j | 0 <= i < j < |r| :: r[i] != r[j]
  {
    var net, g := nets[|nets| - 1], graphs[x];
    QuietRoutersDrawAlike(owner, nets, x);
    TablesFormNetwork(owner, nets, idx, n, graphs, tables, g);
    GraphMeaning(idx, n, NetHops(net), g);
    var p := PathTo(idx, n, net, g, x, dest);
    UnitPathsAreInReach(g, n, idx[x], tables[idx[x]], idx[dest], p);
    RouteIsShortestAndLoopFree(g, n, tables, idx[x], idx[dest]);
  }

  lemma PathTo(idx: Index, n: nat, net: Net, g: Matrix, x: U32, dest: U32) returns (p: seq<int>)
    requires Quiet(net) && Numbered(idx, n, net) && GraphFor(idx, n, NetHops(net), g)
    requires x in net.routers && (dest in net.routers || exists y :: (y, dest) in NetHops(net))
    ensures dest in idx && IsPath(g, idx[x], idx[dest], p)
  {
    if dest in net.routers {
      assert Connected(net, x, dest);
      var c :| Chain(net, x, dest, c);
      p := ChainIsPath(idx, n, net, g, x, dest, c);
    } else {
      var y :| (y, dest) in NetHops(net);
      assert Connected(net, x, y);
      var c :| Chain(net, x, y, c);
      p := ChainIsPath(idx, n, net, g, x, y, c);
      AdvertisedIsLinked(idx, n, net, g, (y, dest));
      WeightSnoc(g, idx[x], idx[y], p, idx[dest]);
      p := p + [idx[dest] as int];
    }
  }

  // ---- which hops get installed

  lemma QuietDatabase(owner: Owner, nets: seq<Net>, x: U32, h: Hop)
    requires Run(owner, nets) && Quiet(nets[|nets| - 1]) && x in nets[|nets| - 1].routers
    ensures var net := nets[|nets| - 1]; h in DbHops(net.routers[x].db) <==> h in NetHops(net) && h.0 != x
  {
    var net := nets[|nets| - 1];
    var r := net.routers[x];
    QuietRoutersDrawAlike(owner, nets, x);
    RunKeepsInv(owner, nets);
    assert RouterOk(owner, net, x);
    if h in DbHops(r.db) {
      var u, a :| u in r.db && a in u.adv && h == (u.rid, a.rid);
    }
  }

  /** Some router other than x advertises the link between u and v, from either end. */
  ghost predicate OthersAdvertise(net: Net, idx: Index, x: U32, u: int, v: int) {
    exists h :: h in NetHops(net) && h.0 != x && (Joins(idx, h.0, h.1, u, v) || Joins(idx, h.0, h.1, v, u))
  }

  /** At quiescence a router installs a hop towards v exactly when someone else advertises the last link
      of its way to v; for its own host network it installs none. */
  lemma QuietHopIsInstalledIff(owner: Owner, nets: seq<Net>, idx: Index, n: nat, x: U32,
                               g: Matrix, sm: Matrix, t: Table, hops: seq<int>, v: nat)
    requires Run(owner, nets)
    requires var net := nets[|nets| - 1];
      && Quiet(net) && Numbered(idx, n, net) && x in net.routers && x in idx
      && SubnetsFor(idx, n, net.routers[x].db, sm) && Subnetted(net.routers[x].db) && Square(sm, n)
      && Settled(g, n, idx[x], t.dist, t.prev) && FirstHops(g, sm, n, idx[x], t, hops)
      && v < n && v != idx[x] && Reaches(n, t, v)
    ensures (hops[v] != -1 <==> OthersAdvertise(nets[|nets| - 1], idx, x, t.prev[v], v))
    ensures hops[v] != -1 ==> hops[v] == FirstHop(g, n, idx[x], t, v)
  {
    var db, u := nets[|nets| - 1].routers[x].db, t.prev[v];
    assert Tight(g, n, t.dist, t.prev, v);
    SubnetKnownIff(idx, n, db, sm, u, v);
    FirstHopIsOnShortestPath(g, n, idx[x], t, v);
    assert HopFor(g, sm, n, idx[x], t, v, hops[v]);
    forall h | h in DbHops(db) || (h in NetHops(nets[|nets| - 1]) && h.0 != x)
      ensures h in DbHops(db) && h in NetHops(nets[|nets| - 1]) && h.0 != x
    {
      QuietDatabase(owner, nets, x, h);
    }
  }

  /** A link that does not touch x is advertised by another router. */
  lemma FarLinkIsAdvertised(idx: Index, n: nat, net: Net, g: Matrix, x: U32, u: int, v: int)
    requires Numbered(idx, n, net) && GraphFor(idx, n, NetHops(net), g) && Link(g, u, v)
    requires x in idx && u != idx[x] && v != idx[x]
    ensures OthersAdvertise(net, idx, x, u, v)
  {
    GraphMeaning(idx, n, NetHops(net), g);
    assert EitherWay(Edges(idx, NetHops(net)), u, v);
    var h :| h in NetHops(net) && h.0 in idx && h.1 in idx
      && ((idx[h.0], idx[h.1]) == (u, v) || (idx[h.0], idx[h.1]) == (v, u));
    assert Joins(idx, h.0, h.1, u, v) || Joins(idx, h.0, h.1, v, u);
  }

  /** So a hop is missing only towards what is directly attached and advertised by nobody else. */
  lemma QuietHopIs(owner: Owner, nets: seq<Net>, idx: Index, n: nat, x: U32,
                   g: Matrix, sm: Matrix, t: Table, hops: seq<int>, v: nat)
    requires Run(owner, nets)
    requires var net := nets[|nets| - 1];
      && Quiet(net) && Numbered(idx, n, net) && x in net.routers && x in idx
      && SubnetsFor(idx, n, net.routers[x].db, sm) && Subnetted(net.routers[x].db) && Square(sm, n)
      && Settled(g, n, idx[x], t.dist, t.prev) && FirstHops(g, sm, n, idx[x], t, hops)
      && GraphFor(idx, n, DrawnHops(net.routers[x]), g) && v < n && v != idx[x] && Reaches(n, t, v)
    ensures var h := FirstHop(g, n, idx[x], t, v);
      hops[v] == if h == v && !OthersAdvertise(nets[|nets| - 1], idx, x, idx[x], v) then -1 else h
  {
    QuietHopIsInstalledIff(owner, nets, idx, n, x, g, sm, t, hops, v);
    FirstHopIsDestIff(g, n, idx[x], t, v);
    if t.prev[v] != idx[x] {
      QuietRoutersDrawAlike(owner, nets, x);
      assert Tight(g, n, t.dist, t.prev, v);
      FarLinkIsAdvertised(idx, n, nets[|nets| - 1], g, x, t.prev[v], v);
    }
  }

  /** Each router also drew its own subnets, none of them zero, and picked its hops. */
  ghost predicate OwnHops(idx: Index, n: nat, net: Net, graphs: map<U32, Matrix>, tables: map<int, Table>,
                          subnets: map<U32, Matrix>, hops: map<U32, seq<int>>)
  {
    forall y | y in net.routers :: OwnHopsAt(idx, n, net, graphs, tables, subnets, hops, y)
  }

  ghost predicate OwnHopsAt(idx: Index, n: nat, net: Net, graphs: map<U32, Matrix>, tables: map<int, Table>,
                            subnets: map<U32, Matrix>, hops: map<U32, seq<int>>, y: U32)
    requires y in net.routers
  {
    && y in idx && y in graphs && idx[y] in tables && y in subnets && y in hops
    && SubnetsFor(idx, n, net.routers[y].db, subnets[y]) && Subnetted(net.routers[y].db) && Square(subnets[y], n)
    && var t := tables[idx[y]];
       Settled(graphs[y], n, idx[y], t.dist, t.prev) && FirstHops(graphs[y], subnets[y], n, idx[y], t, hops[y])
  }

  /** Main result, for the hops that the routers really compute: along the route of QuietNetworkForwards
      every router's hop towards the destination is the next vertex, except that the last router has
      none where it is the only one to advertise the link to the destination. */
  lemma ComputedHopsForward(owner: Owner, nets: seq<Net>, idx: Index, n: nat,
                            graphs: map<U32, Matrix>, tables: map<int, Table>, subnets: map<U32, Matrix>,
                            hops: map<U32, seq<int>>, x: U32, dest: U32, i: nat) returns (y: U32)
    requires Run(owner, nets)
    requires var net := nets[|nets| - 1];
      && Quiet(net) && Numbered(idx, n, net) && n < INFINITY
      && OwnTables(idx, n, net, graphs, tables) && OwnHops(idx, n, net, graphs, tables, subnets, hops)
      && x in net.routers && (dest in net.routers || exists y :: (y, dest) in NetHops(net))
    requires dest in idx && x in graphs && Network(graphs[x], n, tables) && Reaches(n, tables[idx[x]], idx[dest])
    requires i < |Route(graphs[x], n, tables, idx[x], idx[dest])| - 1
    ensures var r := Route(graphs[x], n, tables, idx[x], idx[dest]);
      && y in nets[|nets| - 1].routers && y in idx && idx[y] == r[i] && y in hops && idx[dest] < |hops[y]|
      && hops[y][idx[dest]] ==
           if i == |r| - 2 && !OthersAdvertise(nets[|nets| - 1], idx, y, r[i], idx[dest]) then -1 else r[i + 1]
  {
    var net, d, r := nets[|nets| - 1], idx[dest], Route(graphs[x], n, tables, idx[x], idx[dest]);
    RouteFollowsFirstHops(graphs[x], n, tables, idx[x], d, i);
    assert IsRouter(idx, net, r[i]);
    y :| y in net.routers && y in idx && idx[y] == r[i];
    QuietRoutersDrawAlike(owner, nets, x);
    QuietRoutersDrawAlike(owner, nets, y);
    GraphUnique(idx, n, NetHops(net), graphs[x], graphs[y]);
    assert OwnHopsAt(idx, n, net, graphs, tables, subnets, hops, y);
    QuietHopIs(owner, nets, idx, n, y, graphs[y], subnets[y], tables[r[i]], hops[y], d);
    QuietNetworkForwards(owner, nets, idx, n, graphs, tables, x, dest);
    assert r[i + 1] == d <==> i == |r| - 2;
  }
}
