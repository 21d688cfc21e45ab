/** One round of the routing thread: draw the subnets and the links, symmetrise both, compute, and
    pick a first hop per vertex. */
module RoutingTable {
  import opened Common
  import opened Graphs
  import opened Dijkstra
  import opened LinkState
  import opened MospfDaemon
  import opened Forwarding
  import opened GraphDrawing

  // ---- the subnets of the links

  ghost predicate Joins(idx: Index, from: U32, to: U32, i: int, j: int) {
    from in idx && to in idx && idx[from] == i && idx[to] == j
  }

  /** The entry at (i, j) after one stored advertisement was written over `base`: the last subnet wins. */
  ghost function RowSubnet(idx: Index, from: U32, adv: seq<Lsa>, i: int, j: int, base: int): int {
    if adv == [] then base
    else if Joins(idx, from, adv[|adv| - 1].rid, i, j) then adv[|adv| - 1].subnet
    else RowSubnet(idx, from, adv[..|adv| - 1], i, j, base)
  }

  ghost function DbSubnet(idx: Index, db: seq<Lsu>, i: int, j: int): int {
    if db == [] then 0
    else
      var u := db[|db| - 1];
      RowSubnet(idx, u.rid, u.adv, i, j, DbSubnet(idx, db[..|db| - 1], i, j))
  }

  /** The subnets of the stored links, mirrored. */
  ghost predicate SubnetsFor(idx: Index, n: nat, db: seq<Lsu>, sm: Matrix) {
    exists d :: IsDbSubnets(idx, n, db, d) && IsMirror(d, sm)
  }

  ghost predicate IsDbSubnets(idx: Index, n: nat, db: seq<Lsu>, d: Matrix) {
    Square(d, n) && forall i, j | 0 <= i < n && 0 <= j < n :: d[i][j] == DbSubnet(idx, db, i, j)
  }

  method DrawSubnetRow(subnets: array2<int>, idx: Index, u: Lsu) returns (ok: bool)
    requires Sized(subnets, idx)
    modifies subnets
    ensures ok <==> AllKnown(idx, RowHops(u.rid, u.adv))
    ensures ok ==> forall i, j | 0 <= i < subnets.Length0 && 0 <= j < subnets.Length0 ::
      subnets[i, j] == RowSubnet(idx, u.rid, u.adv, i, j, old(subnets[i, j]))
  {
    ok := true;
    for k := 0 to |u.adv|
      invariant AllKnown(idx, RowHops(u.rid, u.adv[..k]))
      invariant forall i, j | 0 <= i < subnets.Length0 && 0 <= j < subnets.Length0 ::
        subnets[i, j] == RowSubnet(idx, u.rid, u.adv[..k], i, j, old(subnets[i, j]))
    {
      var to := u.adv[k].rid;
      assert (u.rid, to) in RowHops(u.rid, u.adv);
      if u.rid !in idx || to !in idx {
        return false;
      }
      RowHopsSnoc(u.rid, u.adv, k);
      assert u.adv[..k + 1][..k] == u.adv[..k];
      subnets[idx[u.rid], idx[to]] := u.adv[k].subnet;
    }
    assert u.adv[..|u.adv|] == u.adv;
  }

  method DrawSubnets(d: Daemon, subnets: array2<int>, idx: Index) returns (ok: bool)
    requires Sized(subnets, idx)
    requires forall i, j | 0 <= i < subnets.Length0 && 0 <= j < subnets.Length0 :: subnets[i, j] == 0
    modifies subnets
    ensures ok <==> AllKnown(idx, DbHops(d.db))
    ensures ok ==> IsDbSubnets(idx, subnets.Length0, d.db, MatrixOf(subnets))
  {
    ok := true;
    ghost var done: set<Hop> := {};
    for k := 0 to |d.db|
      invariant done == DbHops(d.db[..k]) && AllKnown(idx, done)
      invariant forall i, j | 0 <= i < subnets.Length0 && 0 <= j < subnets.Length0 ::
        subnets[i, j] == DbSubnet(idx, d.db[..k], i, j)
    {
      ghost var row := RowHops(d.db[k].rid, d.db[k].adv);
      assert row <= DbHops(d.db);
      ok := DrawSubnetRow(subnets, idx, d.db[k]);
      if !ok {
        return;
      }
      assert d.db[..k + 1] == d.db[..k] + [d.db[k]];
      assert d.db[..k + 1][..k] == d.db[..k];
      done := done + row;
    }
    assert d.db[..|d.db|] == d.db;
  }

  ghost predicate Subnetted(db: seq<Lsu>) { forall u, a | u in db && a in u.adv :: a.subnet != 0 }

  lemma {:induction false} RowSubnetKnown(idx: Index, from: U32, adv: seq<Lsa>, i: int, j: int, base: int)
    requires forall a | a in adv :: a.subnet != 0
    ensures RowSubnet(idx, from, adv, i, j, base) != 0 <==>
      base != 0 || exists h :: h in RowHops(from, adv) && Joins(idx, h.0, h.1, i, j)
  {
    if adv != [] {
      var front, a := adv[..|adv| - 1], adv[|adv| - 1];
      RowSubnetKnown(idx, from, front, i, j, base);
      RowHopsSnoc(from, adv, |adv| - 1);
      assert adv[..|adv|] == adv;
      assert forall h :: h in RowHops(from, adv) <==> h in RowHops(from, front) || h == (from, a.rid);
    }
  }

  lemma {:induction false} DbSubnetKnown(idx: Index, db: seq<Lsu>, i: int, j: int)
    requires Subnetted(db)
    ensures DbSubnet(idx, db, i, j) != 0 <==> exists h :: h in DbHops(db) && Joins(idx, h.0, h.1, i, j)
  {
    if db != [] {
      var front, u := db[..|db| - 1], db[|db| - 1];
      DbSubnetKnown(idx, front, i, j);
      RowSubnetKnown(idx, u.rid, u.adv, i, j, DbSubnet(idx, front, i, j));
      assert db == front + [u];
      assert forall h :: h in DbHops(db) <==> h in DbHops(front) || h in RowHops(u.rid, u.adv);
    }
  }

  /** A link's subnet is known exactly when a stored advertisement, of either end, names the link. */
  lemma SubnetKnownIff(idx: Index, n: nat, db: seq<Lsu>, sm: Matrix, i: nat, j: nat)
    requires SubnetsFor(idx, n, db, sm) && Subnetted(db) && i < n && j < n
    ensures sm[i][j] != 0 <==>
      exists h :: h in DbHops(db) && (Joins(idx, h.0, h.1, i, j) || Joins(idx, h.0, h.1, j, i))
  {
    var d :| IsDbSubnets(idx, n, db, d) && IsMirror(d, sm);
    assert sm[i][j] == Mirrored(d, i, j);
    DbSubnetKnown(idx, db, i, j);
    DbSubnetKnown(idx, db, j, i);
  }

  /** Entry k of this advertisement names the link from i to j, and no later one does. */
  ghost predicate LastInRow(idx: Index, from: U32, adv: seq<Lsa>, i: int, j: int, k: int) {
    && 0 <= k < |adv| && Joins(idx, from, adv[k].rid, i, j)
    && forall l | k < l < |adv| :: !Joins(idx, from, adv[l].rid, i, j)
  }

  ghost predicate RowNames(idx: Index, from: U32, adv: seq<Lsa>, i: int, j: int) {
    exists k :: 0 <= k < |adv| && Joins(idx, from, adv[k].rid, i, j)
  }

  lemma {:induction false} RowSubnetIs(idx: Index, from: U32, adv: seq<Lsa>, i: int, j: int, base: int)
    ensures !RowNames(idx, from, adv, i, j) ==> RowSubnet(idx, from, adv, i, j, base) == base
    ensures RowNames(idx, from, adv, i, j) ==>
      exists k :: LastInRow(idx, from, adv, i, j, k) && RowSubnet(idx, from, adv, i, j, base) == adv[k].subnet
  {
    if adv != [] {
      var front, last := adv[..|adv| - 1], |adv| - 1;
      RowSubnetIs(idx, from, front, i, j, base);
      if Joins(idx, from, adv[last].rid, i, j) {
        assert LastInRow(idx, from, adv, i, j, last);
      } else {
        if k :| 0 <= k < |adv| && Joins(idx, from, adv[k].rid, i, j) {
          assert front[k] == adv[k];
          var l :| LastInRow(idx, from, front, i, j, l) && RowSubnet(idx, from, front, i, j, base) == front[l].subnet;
          assert LastInRow(idx, from, adv, i, j, l);
        }
        if k :| 0 <= k < |front| && Joins(idx, from, front[k].rid, i, j) {
          assert adv[k] == front[k];
        }
      }
    }
  }

  /** Entry k of the stored advertisement e is the last one, of all that are stored, to name the link. */
  ghost predicate LastInDb(idx: Index, db: seq<Lsu>, i: int, j: int, e: int, k: int) {
    && 0 <= e < |db| && LastInRow(idx, db[e].rid, db[e].adv, i, j, k)
    && forall l | e < l < |db| :: !RowNames(idx, db[l].rid, db[l].adv, i, j)
  }

  ghost predicate DbNames(idx: Index, db: seq<Lsu>, i: int, j: int) {
    exists e :: 0 <= e < |db| && RowNames(idx, db[e].rid, db[e].adv, i, j)
  }

  lemma DbNamesSnoc(idx: Index, front: seq<Lsu>, u: Lsu, i: int, j: int)
    ensures DbNames(idx, front + [u], i, j) <==> DbNames(idx, front, i, j) || RowNames(idx, u.rid, u.adv, i, j)
  {
    hide RowNames;
    var db := front + [u];
    if e :| 0 <= e < |db| && RowNames(idx, db[e].rid, db[e].adv, i, j) {
      assert e < |front| ==> front[e] == db[e];
    }
    if e :| 0 <= e < |front| && RowNames(idx, front[e].rid, front[e].adv, i, j) {
      assert db[e] == front[e];
    }
    assert db[|front|] == u;
  }

  lemma LastInDbSnoc(idx: Index, front: seq<Lsu>, u: Lsu, i: int, j: int, e: int, k: int)
    requires LastInDb(idx, front, i, j, e, k) && !RowNames(idx, u.rid, u.adv, i, j)
    ensures LastInDb(idx, front + [u], i, j, e, k)
  {
    hide RowNames, LastInRow;
  }

  /** The subnet drawn for a link is the one of the last advertisement that names it. */
  lemma {:induction false} DbSubnetIs(idx: Index, db: seq<Lsu>, i: int, j: int)
    ensures !DbNames(idx, db, i, j) ==> DbSubnet(idx, db, i, j) == 0
    ensures DbNames(idx, db, i, j) ==>
      exists e, k :: LastInDb(idx, db, i, j, e, k) && DbSubnet(idx, db, i, j) == db[e].adv[k].subnet
  {
    if db != [] {
      var front, last := db[..|db| - 1], |db| - 1;
      var u, base := db[last], DbSubnet(idx, front, i, j);
      assert db == front + [u];
      DbSubnetIs(idx, front, i, j);
      DbNamesSnoc(idx, front, u, i, j);
      RowSubnetIs(idx, u.rid, u.adv, i, j, base);
      hide RowSubnet, RowNames, LastInRow, DbNames;
      if RowNames(idx, u.rid, u.adv, i, j) {
        var k :| LastInRow(idx, u.rid, u.adv, i, j, k) && RowSubnet(idx, u.rid, u.adv, i, j, base) == u.adv[k].subnet;
        assert LastInDb(idx, db, i, j, last, k);
      } else if DbNames(idx, front, i, j) {
        var e, k :| LastInDb(idx, front, i, j, e, k) && base == front[e].adv[k].subnet;
        LastInDbSnoc(idx, front, u, i, j, e, k);
      }
    }
  }

  // ---- first hops

  /** hops[v] is the neighbour to use towards v, or -1 where none is looked for. */
  ghost predicate FirstHops(g: Matrix, sm: Matrix, n: nat, src: int, t: Table, hops: seq<int>)
    requires Settled(g, n, src, t.dist, t.prev) && Square(sm, n)
  {
    |hops| == n && forall v | 0 <= v < n :: HopFor(g, sm, n, src, t, v, hops[v])
  }

  /** A hop is looked for exactly where the link to v from its predecessor has a known subnet. */
  ghost predicate HopFor(g: Matrix, sm: Matrix, n: nat, src: int, t: Table, v: int, hop: int)
    requires Settled(g, n, src, t.dist, t.prev) && Square(sm, n) && 0 <= v < n
  {
    hop == if v != src && Reaches(n, t, v) && 0 <= t.prev[v] < n && sm[t.prev[v]][v] != 0
           then FirstHop(g, n, src, t, v) else -1
  }

  method DealRtable(d: Daemon, idx: Index, n: nat)
    returns (ok: bool, hops: seq<int>, t: Table, ghost g: Matrix, ghost sm: Matrix)
    requires d.rid in idx && forall r | r in idx :: idx[r] < n
    ensures ok <==> AllKnown(idx, DrawnHops(d.State()))
    ensures ok ==>
      && GraphFor(idx, n, DrawnHops(d.State()), g) && SubnetsFor(idx, n, d.db, sm) && Square(sm, n)
      && Settled(g, n, idx[d.rid], t.dist, t.prev) && FirstTight(g, n, t.dist, t.prev)
      && FirstHops(g, sm, n, idx[d.rid], t, hops)
  {
    hops, t, g, sm := [], Table([], []), [], [];
    var subnets := new int[n, n]((i, j) => 0);
    ok := DrawSubnets(d, subnets, idx);
    if !ok {
      return;
    }
    ghost var stored := MatrixOf(subnets);
    MirrorGraph(subnets);
    sm := MatrixOf(subnets);
    assert IsDbSubnets(idx, n, d.db, stored) && IsMirror(stored, sm);
    var graph;
    ok, graph, g := DrawLinks(d, idx, n);
    if ok {
      t, hops := Compute(graph, subnets, idx[d.rid], g, sm);
    }
  }

  method DrawLinks(d: Daemon, idx: Index, n: nat) returns (ok: bool, graph: array2<int>, ghost g: Matrix)
    requires forall r | r in idx :: idx[r] < n
    ensures fresh(graph) && graph.Length0 == graph.Length1 == n && g == MatrixOf(graph)
    ensures ok <==> AllKnown(idx, DrawnHops(d.State()))
    ensures ok ==> GraphFor(idx, n, DrawnHops(d.State()), g) && Weighted(g, n)
  {
    graph := new int[n, n]((i, j) => 0);
    assert forall i | 0 <= i < n :: MatrixOf(graph)[i] == Zeros(n)[i];
    ok := DrawGraph(d, graph, idx);
    g := MatrixOf(graph);
    if ok {
      ghost var drawn := MatrixOf(graph);
      MirrorGraph(graph);
      g := MatrixOf(graph);
      assert GraphFor(idx, n, DrawnHops(d.State()), g);
      GraphMeaning(idx, n, DrawnHops(d.State()), g);
    }
  }

  method Compute(graph: array2<int>, subnets: array2<int>, src: nat, ghost g: Matrix, ghost sm: Matrix)
    returns (t: Table, hops: seq<int>)
    requires graph.Length1 == subnets.Length0 == subnets.Length1 == graph.Length0 && src < graph.Length0
    requires g == MatrixOf(graph) && sm == MatrixOf(subnets) && Weighted(g, graph.Length0)
    ensures Settled(g, graph.Length0, src, t.dist, t.prev) && Square(sm, graph.Length0)
    ensures FirstTight(g, graph.Length0, t.dist, t.prev) && FirstHops(g, sm, graph.Length0, src, t, hops)
  {
    var n := graph.Length0;
    var dist, prev, purpose := new int[n], new int[n], new int[n](i => 0);
    var picked := Dijkstra.Dijkstra(graph, src, dist, prev, purpose, subnets);
    t := Table(dist[..], prev[..]);
    hops := PickHops(prev, purpose, g, sm, src, dist[..]);
  }

  method PickHops(prev: array<int>, purpose: array<int>,
                  ghost g: Matrix, ghost sm: Matrix, ghost src: nat, ghost dist: seq<int>)
    returns (hops: seq<int>)
    requires Settled(g, prev.Length, src, dist, prev[..]) && purpose.Length == prev.Length
    requires Square(sm, prev.Length)
    requires PurposeFollows(sm, prev.Length, prev[..], purpose[..], seq(prev.Length, i => 0))
    ensures FirstHops(g, sm, prev.Length, src, Table(dist, prev[..]), hops)
  {
    ghost var t := Table(dist, prev[..]);
    hops := [];
    for v := 0 to prev.Length
      invariant |hops| == v
      invariant forall w | 0 <= w < v :: HopFor(g, sm, prev.Length, src, t, w, hops[w])
    {
      var hop := -1;
      if purpose[v] != 0 {
        hop := FindDesiredIndex(prev, v, g, src, dist);
      }
      hops := hops + [hop];
    }
  }

  lemma SubnetsUnique(idx: Index, n: nat, db: seq<Lsu>, sm: Matrix, sm': Matrix)
    requires SubnetsFor(idx, n, db, sm) && SubnetsFor(idx, n, db, sm')
    ensures sm == sm'
  {
    var d :| IsDbSubnets(idx, n, db, d) && IsMirror(d, sm);
    var d' :| IsDbSubnets(idx, n, db, d') && IsMirror(d', sm');
    forall i | 0 <= i < n ensures d[i] == d'[i] {
    }
    assert d == d';
    forall i | 0 <= i < n ensures sm[i] == sm'[i] {
    }
  }

  /** The outcome of a round, down to the choice among equally short paths, is determined by the links and
      subnets that the router draws. */
  lemma RoundIsDetermined(idx: Index, n: nat, links: set<Hop>, db: seq<Lsu>, src: int, g: Matrix, sm: Matrix, t: Table,
                          hops: seq<int>, g': Matrix, sm': Matrix, t': Table, hops': seq<int>)
    requires GraphFor(idx, n, links, g) && SubnetsFor(idx, n, db, sm) && Square(sm, n)
    requires Settled(g, n, src, t.dist, t.prev) && FirstTight(g, n, t.dist, t.prev) && FirstHops(g, sm, n, src, t, hops)
    requires GraphFor(idx, n, links, g') && SubnetsFor(idx, n, db, sm') && Square(sm', n)
    requires Settled(g', n, src, t'.dist, t'.prev) && FirstTight(g', n, t'.dist, t'.prev)
    requires FirstHops(g', sm', n, src, t', hops')
    ensures g == g' && sm == sm' && t == t' && hops == hops'
  {
    GraphUnique(idx, n, links, g, g');
    SubnetsUnique(idx, n, db, sm, sm');
    TableIsUnique(g, n, src, t.dist, t.prev, t'.dist, t'.prev);
    hide Settled, FirstTight, GraphFor, SubnetsFor;
    forall v | 0 <= v < n ensures hops[v] == hops'[v] {
      assert HopFor(g, sm, n, src, t, v, hops[v]) && HopFor(g, sm, n, src, t, v, hops'[v]);
    }
  }
}
