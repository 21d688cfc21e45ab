/** From predecessor arrays to hop-by-hop forwarding: the backward walk that extracts the first
    hop, and the proof that independent routers following their own tables never loop. */
module Forwarding {
  import opened Graphs
  import opened Dijkstra

  /** What one router keeps after running the shortest-path computation. */
  datatype Table = Table(dist: seq<int>, prev: seq<int>)

  ghost predicate Reaches(n: nat, t: Table, dest: int) {
    |t.dist| == |t.prev| == n && 0 <= dest < n && t.dist[dest] < INFINITY
  }

  ghost function FirstHop(g: Matrix, n: nat, src: int, t: Table, dest: int): int
    requires Settled(g, n, src, t.dist, t.prev) && Reaches(n, t, dest) && dest != src
  {
    TreePath(g, n, src, t.dist, t.prev, dest)[1]
  }

  /** The backward walk over prev.  It may be started only where prev[dest] is not -1; by Settled
      those are exactly the destinations other than src within reach. */
  method FindDesiredIndex(prev: array<int>, dest: int,
                          ghost g: Matrix, ghost src: int, ghost dist: seq<int>)
    returns (hop: int)
    requires Settled(g, prev.Length, src, dist, prev[..])
    requires 0 <= dest < prev.Length && prev[dest] != -1
    ensures Reaches(prev.Length, Table(dist, prev[..]), dest) && dest != src
    ensures hop == FirstHop(g, prev.Length, src, Table(dist, prev[..]), dest)
    ensures prev[hop] == src
  {
    ghost var n, t := prev.Length, prev[..];
    hop := dest;
    assert Tight(g, n, dist, t, hop);
    while prev[prev[hop]] != -1
      invariant 0 <= hop < n && hop != src && dist[hop] < INFINITY
      invariant Tight(g, n, dist, t, hop)
      invariant TreePath(g, n, src, dist, t, hop)[1] == TreePath(g, n, src, dist, t, dest)[1]
      decreases dist[hop]
    {
      hop := prev[hop];
      assert Tight(g, n, dist, t, hop);
    }
  }

  lemma DistanceUnique(g: Matrix, s: int, t: int, d: int, d': int)
    requires IsDistance(g, s, t, d) && IsDistance(g, s, t, d')
    ensures d == d'
  {
  }

  /** The first hop is a direct neighbour, and continuing from it costs exactly the rest. */
  lemma FirstHopIsOnShortestPath(g: Matrix, n: nat, src: int, t: Table, dest: int)
    requires Settled(g, n, src, t.dist, t.prev) && Reaches(n, t, dest) && dest != src
    ensures var h := FirstHop(g, n, src, t, dest);
      Link(g, src, h) && t.prev[h] == src && IsDistance(g, h, dest, t.dist[dest] - g[src][h])
  {
    var p := TreePath(g, n, src, t.dist, t.prev, dest);
    var h := p[1];
    TailPath(g, src, dest, p);
    forall q | IsPath(g, h, dest, q) ensures t.dist[dest] - g[src][h] <= Weight(g, q) {
      ConsPath(g, src, h, dest, q);
      NoShorterPath(g, n, src, t.dist, t.prev, dest, [src] + q);
    }
  }

  // ---- a network of routers and stubs

  ghost predicate Symmetric(g: Matrix, n: nat) {
    Square(g, n) && forall i, j | 0 <= i < n && 0 <= j < n :: g[i][j] == g[j][i]
  }

  /** A vertex with at most one neighbour: a host network behind a single router. */
  ghost predicate Stub(g: Matrix, n: nat, v: int) {
    forall a, b | Link(g, v, a) && Link(g, v, b) :: a == b
  }

  /** Every router holds its own settled table of the same graph; all other vertices are stubs. */
  ghost predicate Network(g: Matrix, n: nat, tables: map<int, Table>) {
    && Weighted(g, n) && Symmetric(g, n)
    && (forall x | x in tables :: 0 <= x < n && Settled(g, n, x, tables[x].dist, tables[x].prev))
    && (forall v | 0 <= v < n && v !in tables :: Stub(g, n, v))
  }

  /** One forwarding step: the next router (if it is not the destination itself) is a router again,
      and its own table agrees that exactly the weight of the link was travelled. */
  lemma StepGetsCloser(g: Matrix, n: nat, tables: map<int, Table>, x: int, dest: int)
    requires Network(g, n, tables) && x in tables && Reaches(n, tables[x], dest) && dest != x
    ensures var h := FirstHop(g, n, x, tables[x], dest);
      && Link(g, x, h) && g[x][h] > 0
      && (h == dest ==> tables[x].dist[dest] == g[x][h])
      && (h != dest ==> h in tables && Reaches(n, tables[h], dest)
                        && tables[h].dist[dest] == tables[x].dist[dest] - g[x][h])
  {
    var h := FirstHop(g, n, x, tables[x], dest);
    var d := tables[x].dist[dest];
    FirstHopIsOnShortestPath(g, n, x, tables[x], dest);
    var p :| IsPath(g, h, dest, p) && Weight(g, p) == d - g[x][h];
    if h == dest {
      assert IsPath(g, dest, dest, [dest]);
      WeightNonNegative(g, n, p);
      assert Weight(g, [dest]) == 0;
    } else {
      if h !in tables {
        StubIsNoTransit(g, n, tables, x, h, dest, p);
      }
      NoShorterPath(g, n, h, tables[h].dist, tables[h].prev, dest, p);
      SettledIsShortest(g, n, h, tables[h].dist, tables[h].prev, dest);
      DistanceUnique(g, h, dest, tables[h].dist[dest], d - g[x][h]);
    }
  }

  lemma {:induction false} WeightNonNegative(g: Matrix, n: nat, p: seq<int>)
    requires Weighted(g, n)
    ensures Weight(g, p) >= 0
    decreases |p|
  {
    if |p| >= 2 && Link(g, p[0], p[1]) {
      WeightNonNegative(g, n, p[1..]);
    }
  }

  lemma StubIsNoTransit(g: Matrix, n: nat, tables: map<int, Table>, x: int, h: int, dest: int, p: seq<int>)
    requires Network(g, n, tables) && x in tables && Reaches(n, tables[x], dest)
    requires Link(g, x, h) && IsPath(g, h, dest, p) && h != dest
    requires Weight(g, p) == tables[x].dist[dest] - g[x][h]
    ensures h in tables
  {
    if h !in tables {
      assert |p| > 1;
      TailPath(g, h, dest, p);
      assert Link(g, h, x);
      assert Stub(g, n, h);
      assert p[1] == x;
      NoShorterPath(g, n, x, tables[x].dist, tables[x].prev, dest, p[1..]);
    }
  }

  /** The vertices a packet for dest visits when each router forwards to its own first hop. */
  ghost function Route(g: Matrix, n: nat, tables: map<int, Table>, x: int, dest: int): (r: seq<int>)
    requires Network(g, n, tables) && x in tables && Reaches(n, tables[x], dest)
    ensures |r| > 0
    decreases tables[x].dist[dest]
  {
    if x == dest then [x]
    else
      StepGetsCloser(g, n, tables, x, dest);
      var h := FirstHop(g, n, x, tables[x], dest);
      if h == dest then [x, dest] else [x] + Route(g, n, tables, h, dest)
  }

  /** Forwarding delivers, along a path of least weight, visiting no vertex twice. */
  lemma {:induction false} RouteIsShortestAndLoopFree(g: Matrix, n: nat, tables: map<int, Table>, x: int, dest: int)
    requires Network(g, n, tables) && x in tables && Reaches(n, tables[x], dest)
    ensures var r := Route(g, n, tables, x, dest);
      && IsPath(g, x, dest, r) && IsDistance(g, x, dest, Weight(g, r))
      && (forall i, j | 0 <= i < j < |r| :: r[i] != r[j])
      && (forall i | 0 <= i < |r| - 1 :: r[i] in tables)
  {
    SettledIsShortest(g, n, x, tables[x].dist, tables[x].prev, dest);
    RouteDecreases(g, n, tables, x, dest);
    var r := Route(g, n, tables, x, dest);
    assert StrictlyCloser(tables, dest, r);
  }

  ghost function Remaining(tables: map<int, Table>, dest: int, v: int): int {
    if v == dest || v !in tables || dest < 0 || dest >= |tables[v].dist| then 0 else tables[v].dist[dest]
  }

  ghost predicate StrictlyCloser(tables: map<int, Table>, dest: int, r: seq<int>) {
    forall i, j | 0 <= i < j < |r| :: Remaining(tables, dest, r[j]) < Remaining(tables, dest, r[i])
  }

  lemma CloserCons(tables: map<int, Table>, dest: int, x: int, rest: seq<int>)
    requires |rest| > 0 && StrictlyCloser(tables, dest, rest)
    requires Remaining(tables, dest, rest[0]) < Remaining(tables, dest, x)
    ensures StrictlyCloser(tables, dest, [x] + rest)
  {
    var r := [x] + rest;
    forall i, j | 0 <= i < j < |r| ensures Remaining(tables, dest, r[j]) < Remaining(tables, dest, r[i]) {
      assert j > 1 ==> Remaining(tables, dest, rest[j - 1]) < Remaining(tables, dest, rest[0]);
    }
  }

  lemma {:induction false} RouteDecreases(g: Matrix, n: nat, tables: map<int, Table>, x: int, dest: int)
    requires Network(g, n, tables) && x in tables && Reaches(n, tables[x], dest)
    ensures var r := Route(g, n, tables, x, dest);
      && IsPath(g, x, dest, r) && Weight(g, r) == tables[x].dist[dest]
      && (forall i | 0 <= i < |r| - 1 :: r[i] in tables)
      && StrictlyCloser(tables, dest, r)
    decreases tables[x].dist[dest]
  {
    if x != dest {
      StepGetsCloser(g, n, tables, x, dest);
      var h := FirstHop(g, n, x, tables[x], dest);
      var rest := [dest];
      if h != dest {
        RouteDecreases(g, n, tables, h, dest);
        rest := Route(g, n, tables, h, dest);
      }
      assert Route(g, n, tables, x, dest) == [x] + rest;
      ConsPath(g, x, h, dest, rest);
      CloserCons(tables, dest, x, rest);
    }
  }

  /** A vertex whose predecessor is the source is its own first hop, and no other is. */
  lemma FirstHopIsDestIff(g: Matrix, n: nat, src: int, t: Table, dest: int)
    requires Settled(g, n, src, t.dist, t.prev) && Reaches(n, t, dest) && dest != src
    ensures FirstHop(g, n, src, t, dest) == dest <==> t.prev[dest] == src
  {
    FirstHopIsOnShortestPath(g, n, src, t, dest);
    if t.prev[dest] == src {
      TreePathOfOne(g, n, src, t, dest);
    }
  }

  lemma TreePathOfOne(g: Matrix, n: nat, src: int, t: Table, dest: int)
    requires Settled(g, n, src, t.dist, t.prev) && Reaches(n, t, dest) && dest != src && t.prev[dest] == src
    ensures FirstHop(g, n, src, t, dest) == dest
  {
    assert t.dist[src] == 0;
    assert TreePath(g, n, src, t.dist, t.prev, src) == [src];
    hide Settled, IsPath, Weight, Link, Tight;
    assert TreePath(g, n, src, t.dist, t.prev, dest) == TreePath(g, n, src, t.dist, t.prev, src) + [dest];
  }

  /** Every vertex of a route but the last forwards to the next one by its own table. */
  lemma {:induction false} RouteFollowsFirstHops(g: Matrix, n: nat, tables: map<int, Table>, x: int, dest: int, i: nat)
    requires Network(g, n, tables) && x in tables && Reaches(n, tables[x], dest)
    requires i < |Route(g, n, tables, x, dest)| - 1
    ensures var r := Route(g, n, tables, x, dest);
      r[i] in tables && r[i] != dest && Reaches(n, tables[r[i]], dest)
      && r[i + 1] == FirstHop(g, n, r[i], tables[r[i]], dest)
    decreases i
  {
    hide Settled, Stub, Symmetric, FirstHop;
    StepGetsCloser(g, n, tables, x, dest);
    var h := FirstHop(g, n, x, tables[x], dest);
    if h != dest {
      if i == 0 {
        RouteStarts(g, n, tables, h, dest);
      } else {
        RouteFollowsFirstHops(g, n, tables, h, dest, i - 1);
      }
    }
  }

  lemma RouteStarts(g: Matrix, n: nat, tables: map<int, Table>, x: int, dest: int)
    requires Network(g, n, tables) && x in tables && Reaches(n, tables[x], dest)
    ensures Route(g, n, tables, x, dest)[0] == x
  {
  }
}
