/** The router's shortest-path computation, on arrays updated in place, for any number of
    vertices.  `Settled` says locally what the three result arrays record; the lemmas show that
    this makes every distance exact and every predecessor chain a shortest path. */
module Dijkstra {
  import opened Common
  import opened Graphs

  ghost function MatrixOf(a: array2<int>): (g: Matrix)
    reads a
    ensures |g| == a.Length0 && forall i | 0 <= i < |g| :: |g[i]| == a.Length1
    ensures forall i, j | 0 <= i < a.Length0 && 0 <= j < a.Length1 :: g[i][j] == a[i, j]
  {
    seq(a.Length0, i requires 0 <= i < a.Length0 reads a =>
      seq(a.Length1, j requires 0 <= j < a.Length1 reads a => a[i, j]))
  }

  /** dist and prev form a tree of shortest paths rooted at src: distances never exceed the one
      over any single link, and every predecessor is tight. */
  ghost predicate Settled(g: Matrix, n: nat, src: int, dist: seq<int>, prev: seq<int>) {
    && Weighted(g, n) && |dist| == n && |prev| == n && 0 <= src < n
    && dist[src] == 0 && prev[src] == -1
    && (forall v | 0 <= v < n :: 0 <= dist[v] <= INFINITY)
    && (forall v | 0 <= v < n && v != src :: prev[v] == -1 <==> dist[v] == INFINITY)
    && (forall v | 0 <= v < n && prev[v] != -1 :: Tight(g, n, dist, prev, v))
    && (forall u, v | 0 <= u < n && 0 <= v < n && Link(g, u, v) :: dist[v] <= dist[u] + g[u][v])
  }

  ghost predicate Tight(g: Matrix, n: nat, dist: seq<int>, prev: seq<int>, v: int)
    requires |dist| == n && |prev| == n && 0 <= v < n
  {
    0 <= prev[v] < n && Link(g, prev[v], v) && dist[v] == dist[prev[v]] + g[prev[v]][v]
  }

  // ---- what a settled table means

  lemma {:induction false} NoShorterPath(g: Matrix, n: nat, src: int, dist: seq<int>, prev: seq<int>,
                                         v: int, p: seq<int>)
    requires Settled(g, n, src, dist, prev) && IsPath(g, src, v, p)
    ensures dist[v] <= Weight(g, p)
    decreases |p|
  {
    hide Tight;
    if |p| > 1 {
      hide Weight;
      var q, u := p[..|p| - 1], p[|p| - 2];
      PathInRange(g, n, src, v, p);
      assert Link(g, u, v);
      assert IsPath(g, src, u, q);
      NoShorterPath(g, n, src, dist, prev, u, q);
      WeightSnoc(g, src, u, q, v);
      assert q + [v] == p;
    }
  }

  /** The path recorded by the predecessor array. */
  ghost function TreePath(g: Matrix, n: nat, src: int, dist: seq<int>, prev: seq<int>, v: int): (p: seq<int>)
    requires Settled(g, n, src, dist, prev) && 0 <= v < n && dist[v] < INFINITY
    ensures IsPath(g, src, v, p) && Weight(g, p) == dist[v]
    ensures v != src ==> |p| > 1 && prev[p[1]] == src
    decreases dist[v]
  {
    if v == src then [v]
    else
      assert Tight(g, n, dist, prev, v);
      var p := TreePath(g, n, src, dist, prev, prev[v]);
      WeightSnoc(g, src, prev[v], p, v);
      p + [v]
  }

  /** Every distance below INFINITY is exact, and exactly the vertices within INFINITY have one. */
  lemma SettledIsShortest(g: Matrix, n: nat, src: int, dist: seq<int>, prev: seq<int>, v: int)
    requires Settled(g, n, src, dist, prev) && 0 <= v < n
    ensures dist[v] < INFINITY <==> exists p :: IsPath(g, src, v, p) && Weight(g, p) < INFINITY
    ensures dist[v] < INFINITY ==> IsDistance(g, src, v, dist[v])
  {
    forall p | IsPath(g, src, v, p) ensures dist[v] <= Weight(g, p) {
      NoShorterPath(g, n, src, dist, prev, v, p);
    }
    if dist[v] < INFINITY {
      var p := TreePath(g, n, src, dist, prev, v);
    }
  }

  // ---- the computation

  /** The unvisited vertex with the least distance below INFINITY; the first one on ties. */
  method MinDistance(dist: array<int>, sptSet: array<bool>) returns (r: Option<nat>)
    requires dist.Length == sptSet.Length
    ensures r.None? ==> forall v | 0 <= v < dist.Length :: sptSet[v] || dist[v] >= INFINITY
    ensures r.Some? ==>
      && r.value < dist.Length && !sptSet[r.value] && dist[r.value] < INFINITY
      && (forall v | 0 <= v < dist.Length && !sptSet[v] :: dist[r.value] <= dist[v])
      && (forall v | 0 <= v < r.value && !sptSet[v] :: dist[r.value] < dist[v])
  {
    var min := INFINITY;
    r := None;
    for v := 0 to dist.Length
      invariant r.None? ==> min == INFINITY && forall w | 0 <= w < v :: sptSet[w] || dist[w] >= INFINITY
      invariant r.Some? ==>
        && r.value < v && !sptSet[r.value] && dist[r.value] == min < INFINITY
        && (forall w | 0 <= w < v && !sptSet[w] :: min <= dist[w])
        && (forall w | 0 <= w < r.value && !sptSet[w] :: min < dist[w])
    {
      if !sptSet[v] && dist[v] < min {
        min := dist[v];
        r := Some(v);
      }
    }
  }

  ghost predicate Improves(g: Matrix, dist: seq<int>, visited: set<int>, u: int, v: int)
    requires 0 <= u < |dist| && 0 <= v < |dist|
  {
    v !in visited && Link(g, u, v) && dist[u] + g[u][v] < dist[v]
  }

  ghost predicate NoFarther(dist: seq<int>, u: int, v: int)
    requires 0 <= u < |dist| && 0 <= v < |dist|
  {
    dist[u] <= dist[v]
  }

  /** What holds between two rounds. */
  ghost predicate Partial(g: Matrix, n: nat, src: int, dist: seq<int>, prev: seq<int>, visited: set<int>) {
    && Weighted(g, n) && |dist| == n && |prev| == n && 0 <= src < n
    && dist[src] == 0 && prev[src] == -1
    && (visited == {} || src in visited)
    && (forall v | 0 <= v < n :: 0 <= dist[v] <= INFINITY)
    && (forall v | 0 <= v < n && v != src :: prev[v] == -1 <==> dist[v] == INFINITY)
    && (forall v | 0 <= v < n && prev[v] != -1 :: prev[v] in visited && Tight(g, n, dist, prev, v))
    && (forall u | u in visited :: 0 <= u < n && dist[u] < INFINITY)
    && (forall u, v | u in visited && 0 <= v < n && v !in visited :: NoFarther(dist, u, v))
    && (forall u, v | u in visited && 0 <= v < n && Link(g, u, v) :: dist[v] <= dist[u] + g[u][v])
  }

  /** The order in which vertices are selected. */
  ghost predicate Sooner(dist: seq<int>, u: int, v: int)
    requires 0 <= u < |dist| && 0 <= v < |dist|
  {
    dist[u] < dist[v] || (dist[u] == dist[v] && u <= v)
  }

  /** The last link of a shortest path to v leaves u. */
  ghost predicate EndsPath(g: Matrix, dist: seq<int>, u: int, v: int)
    requires 0 <= u < |dist| && 0 <= v < |dist|
  {
    dist[u] < INFINITY && Link(g, u, v) && dist[u] + g[u][v] == dist[v]
  }

  /** Of several candidates for a predecessor it is the one selected first. */
  ghost predicate FirstTight(g: Matrix, n: nat, dist: seq<int>, prev: seq<int>) {
    && |dist| == |prev| == n
    && forall u, v | 0 <= u < n && 0 <= v < n && 0 <= prev[v] < n && EndsPath(g, dist, u, v) :: Sooner(dist, prev[v], u)
  }

  /** What holds of the order between two rounds. */
  ghost predicate Orderly(g: Matrix, n: nat, dist: seq<int>, prev: seq<int>, visited: set<int>)
    requires |dist| == |prev| == n
  {
    && (forall u, v | u in visited && 0 <= u < n && 0 <= v < n && v !in visited :: Sooner(dist, u, v))
    && (forall u, v | u in visited && 0 <= u < n && 0 <= v < n && 0 <= prev[v] < n && EndsPath(g, dist, u, v) ::
          Sooner(dist, prev[v], u))
  }

  lemma PartialBecomesFirstTight(g: Matrix, n: nat, src: int, dist: seq<int>, prev: seq<int>, visited: set<int>)
    requires Partial(g, n, src, dist, prev, visited) && Orderly(g, n, dist, prev, visited)
    requires forall u, v | 0 <= u < n && 0 <= v < n && u !in visited && v !in visited ::
      u == v || dist[u] == dist[v] == INFINITY
    ensures FirstTight(g, n, dist, prev)
  {
    forall u, v | 0 <= u < n && 0 <= v < n && 0 <= prev[v] < n && EndsPath(g, dist, u, v)
      ensures Sooner(dist, prev[v], u)
    {
      assert u in visited || v !in visited || Sooner(dist, v, u);
    }
  }

  /** So the tables are determined by the graph: whoever computes from the same source over the same graph
      gets the same distances and the same predecessors. */
  lemma TableIsUnique(g: Matrix, n: nat, src: int, dist: seq<int>, prev: seq<int>, dist': seq<int>, prev': seq<int>)
    requires Settled(g, n, src, dist, prev) && FirstTight(g, n, dist, prev)
    requires Settled(g, n, src, dist', prev') && FirstTight(g, n, dist', prev')
    ensures dist == dist' && prev == prev'
  {
    forall v | 0 <= v < n ensures dist[v] == dist'[v] {
      SettledIsShortest(g, n, src, dist, prev, v);
      SettledIsShortest(g, n, src, dist', prev', v);
    }
    assert dist == dist';
    forall v | 0 <= v < n ensures prev[v] == prev'[v] {
      if v != src && prev[v] != -1 {
        SameCandidate(g, n, src, dist, prev, prev', v);
      }
    }
  }

  lemma SameCandidate(g: Matrix, n: nat, src: int, dist: seq<int>, prev: seq<int>, prev': seq<int>, v: int)
    requires Settled(g, n, src, dist, prev) && FirstTight(g, n, dist, prev)
    requires Settled(g, n, src, dist, prev') && FirstTight(g, n, dist, prev')
    requires 0 <= v < n && v != src && prev[v] != -1
    ensures prev[v] == prev'[v]
  {
    assert Tight(g, n, dist, prev, v) && Tight(g, n, dist, prev', v);
    assert EndsPath(g, dist, prev[v], v) && EndsPath(g, dist, prev'[v], v);
  }

  /** Once every unvisited vertex, bar at most one, is out of reach, nothing remains to improve. */
  lemma PartialBecomesSettled(g: Matrix, n: nat, src: int, dist: seq<int>, prev: seq<int>, visited: set<int>)
    requires Partial(g, n, src, dist, prev, visited)
    requires forall u, v | 0 <= u < n && 0 <= v < n && u !in visited && v !in visited ::
      u == v || dist[u] == dist[v] == INFINITY
    ensures Settled(g, n, src, dist, prev)
  {
    forall u, v | 0 <= u < n && 0 <= v < n && Link(g, u, v) ensures dist[v] <= dist[u] + g[u][v] {
      if u !in visited && v in visited {
        assert NoFarther(dist, v, u);
      }
    }
  }

  ghost function Below(n: nat): (s: set<int>)
    ensures |s| == n
    ensures forall v :: v in s <==> 0 <= v < n
  {
    if n == 0 then {} else
      assert Below(n - 1) !! {n - 1};
      Below(n - 1) + {n - 1}
  }

  /** The vertices with a finite distance. */
  ghost function InReach(dist: seq<int>): (s: set<int>)
    ensures forall v :: v in s <==> 0 <= v < |dist| && dist[v] < INFINITY
  {
    set v | v in Below(|dist|) && dist[v] < INFINITY
  }

  /** The vertices that some path of less than the infinite weight leads to. */
  ghost function WithinReach(g: Matrix, n: nat, src: int): set<int> {
    set v | v in Below(n) && exists p :: IsPath(g, src, v, p) && Weight(g, p) < INFINITY
  }

  lemma SubsetSize(a: set<int>, b: set<int>)
    requires a <= b
    ensures |a| <= |b|
    ensures |a| == |b| ==> a == b
  {
    assert b == a + (b - a);
  }

  /** purpose holds the subnet of the predecessor link, and is untouched where there is none. */
  ghost predicate PurposeFollows(s: Matrix, n: nat, prev: seq<int>, purpose: seq<int>, before: seq<int>)
    requires Square(s, n) && |prev| == |purpose| == |before| == n
  {
    forall v | 0 <= v < n ::
      if prev[v] == -1 then purpose[v] == before[v] else 0 <= prev[v] < n && purpose[v] == s[prev[v]][v]
  }

  /** Exactly the links out of u that improve a distance were recorded. */
  ghost predicate Relaxed(g: Matrix, s: Matrix, visited: set<int>, u: int,
                          dist: seq<int>, prev: seq<int>, purpose: seq<int>,
                          dist': seq<int>, prev': seq<int>, purpose': seq<int>)
    requires |dist| == |prev| == |purpose| == |s| && 0 <= u < |dist|
    requires Square(s, |s|)
  {
    && |dist'| == |prev'| == |purpose'| == |dist|
    && forall v | 0 <= v < |dist| ::
         if Improves(g, dist, visited, u, v)
         then dist'[v] == dist[u] + g[u][v] && prev'[v] == u && purpose'[v] == s[u][v]
         else dist'[v] == dist[v] && prev'[v] == prev[v] && purpose'[v] == purpose[v]
  }

  /** The inner loop: relax every link that leaves the vertex u just selected. */
  method Relax(graph: array2<int>, subnets: array2<int>, u: nat, sptSet: array<bool>,
               dist: array<int>, prev: array<int>, purpose: array<int>, ghost visited: set<int>)
    requires Weighted(MatrixOf(graph), graph.Length0)
    requires graph.Length1 == subnets.Length0 == subnets.Length1 == graph.Length0 && u < graph.Length0
    requires sptSet.Length == dist.Length == prev.Length == purpose.Length == graph.Length0
    requires dist != prev && dist != purpose && prev != purpose
    requires forall v | 0 <= v < graph.Length0 :: sptSet[v] <==> v in visited
    requires u in visited
    modifies dist, prev, purpose
    ensures Relaxed(MatrixOf(graph), MatrixOf(subnets), visited, u, old(dist[..]), old(prev[..]), old(purpose[..]),
                    dist[..], prev[..], purpose[..])
  {
    for v := 0 to graph.Length0
      invariant forall w | v <= w < graph.Length0 ::
        dist[w] == old(dist[w]) && prev[w] == old(prev[w]) && purpose[w] == old(purpose[w])
      invariant dist[u] == old(dist[u])
      invariant forall w | 0 <= w < v ::
        if Improves(MatrixOf(graph), old(dist[..]), visited, u, w)
        then dist[w] == old(dist[u]) + graph[u, w] && prev[w] == u && purpose[w] == subnets[u, w]
        else dist[w] == old(dist[w]) && prev[w] == old(prev[w]) && purpose[w] == old(purpose[w])
    {
      if !sptSet[v] && graph[u, v] != 0 && dist[u] + graph[u, v] < dist[v] {
        dist[v] := dist[u] + graph[u, v];
        prev[v] := u;
        purpose[v] := subnets[u, v];
      }
    }
  }

  lemma RoundKeepsPartial(g: Matrix, s: Matrix, n: nat, src: int, visited: set<int>, u: int,
                          dist: seq<int>, prev: seq<int>, purpose: seq<int>,
                          dist': seq<int>, prev': seq<int>, purpose': seq<int>)
    requires Partial(g, n, src, dist, prev, visited)
    requires 0 <= u < n && u !in visited && dist[u] < INFINITY
    requires forall v | 0 <= v < n && v !in visited :: dist[u] <= dist[v]
    requires Square(s, n) && |purpose| == n
    requires Relaxed(g, s, visited + {u}, u, dist, prev, purpose, dist', prev', purpose')
    ensures Partial(g, n, src, dist', prev', visited + {u})
  {
    assert visited == {} ==> u == src;
    assert dist'[u] == dist[u];
    forall x, v | x in visited + {u} && 0 <= v < n && v !in visited + {u} ensures NoFarther(dist', x, v) {
      if x in visited {
        assert NoFarther(dist, x, u) && NoFarther(dist, x, v);
      }
    }
    forall v | 0 <= v < n && prev'[v] != -1
      ensures prev'[v] in visited + {u} && Tight(g, n, dist', prev', v)
    {
      if !Improves(g, dist, visited + {u}, u, v) {
        assert Tight(g, n, dist, prev, v);
        assert !Improves(g, dist, visited + {u}, u, prev[v]);
      }
    }
    forall x, v | x in visited + {u} && 0 <= v < n && Link(g, x, v)
      ensures dist'[v] <= dist'[x] + g[x][v]
    {
      assert dist'[x] == dist[x] && dist'[v] <= dist[v];
      if x == u && v in visited {
        assert NoFarther(dist, v, u);
      }
    }
  }

  lemma RoundKeepsOrderly(g: Matrix, s: Matrix, n: nat, src: int, visited: set<int>, u: int,
                          dist: seq<int>, prev: seq<int>, purpose: seq<int>,
                          dist': seq<int>, prev': seq<int>, purpose': seq<int>)
    requires Partial(g, n, src, dist, prev, visited) && Orderly(g, n, dist, prev, visited)
    requires 0 <= u < n && u !in visited && dist[u] < INFINITY
    requires forall v | 0 <= v < n && v !in visited :: Sooner(dist, u, v)
    requires Square(s, n) && |purpose| == n
    requires Relaxed(g, s, visited + {u}, u, dist, prev, purpose, dist', prev', purpose')
    ensures |dist'| == |prev'| == n && Orderly(g, n, dist', prev', visited + {u})
  {
    assert dist'[u] == dist[u];
    forall x | x in visited ensures 0 <= x < n && dist'[x] == dist[x] && Sooner(dist, x, u) {
      assert !Improves(g, dist, visited + {u}, u, x);
    }
    forall x, v | x in visited + {u} && 0 <= v < n && v !in visited + {u} ensures Sooner(dist', x, v) {
      assert Sooner(dist, x, v) && Sooner(dist, x, u);
      assert Improves(g, dist, visited + {u}, u, v) ==> dist'[v] > dist[u];
    }
    forall x, v | x in visited + {u} && 0 <= v < n && 0 <= prev'[v] < n && EndsPath(g, dist', x, v)
      ensures Sooner(dist', prev'[v], x)
    {
      CandidateStays(g, s, n, src, visited, u, dist, prev, purpose, dist', prev', purpose', x, v);
    }
  }

  lemma CandidateStays(g: Matrix, s: Matrix, n: nat, src: int, visited: set<int>, u: int,
                       dist: seq<int>, prev: seq<int>, purpose: seq<int>,
                       dist': seq<int>, prev': seq<int>, purpose': seq<int>, x: int, v: int)
    requires Partial(g, n, src, dist, prev, visited) && Orderly(g, n, dist, prev, visited)
    requires 0 <= u < n && u !in visited && dist[u] < INFINITY
    requires forall v | 0 <= v < n && v !in visited :: Sooner(dist, u, v)
    requires Square(s, n) && |purpose| == n
    requires Relaxed(g, s, visited + {u}, u, dist, prev, purpose, dist', prev', purpose')
    requires forall x | x in visited :: 0 <= x < n && dist'[x] == dist[x] && Sooner(dist, x, u)
    requires dist'[u] == dist[u]
    requires x in visited + {u} && 0 <= x < n && 0 <= v < n && 0 <= prev'[v] < n && EndsPath(g, dist', x, v)
    ensures Sooner(dist', prev'[v], x)
  {
    if Improves(g, dist, visited + {u}, u, v) {
      assert prev'[v] == u && dist'[v] < dist[v];
    } else {
      assert prev'[v] == prev[v] && dist'[v] == dist[v];
      assert prev[v] in visited && Sooner(dist, prev[v], u);
      assert x in visited ==> EndsPath(g, dist, x, v);
    }
  }

  lemma RoundKeepsPurpose(g: Matrix, s: Matrix, n: nat, visited: set<int>, u: int,
                          dist: seq<int>, prev: seq<int>, purpose: seq<int>,
                          dist': seq<int>, prev': seq<int>, purpose': seq<int>, before: seq<int>)
    requires Square(s, n) && |dist| == |prev| == |purpose| == |before| == n && 0 <= u < n
    requires PurposeFollows(s, n, prev, purpose, before)
    requires Relaxed(g, s, visited, u, dist, prev, purpose, dist', prev', purpose')
    ensures PurposeFollows(s, n, prev', purpose', before)
  {
    forall v | 0 <= v < n
      ensures if prev'[v] == -1 then purpose'[v] == before[v]
              else 0 <= prev'[v] < n && purpose'[v] == s[prev'[v]][v]
    {
      assert Improves(g, dist, visited, u, v) || !Improves(g, dist, visited, u, v);
    }
  }

  ghost function Visit(visited: set<int>, r: Option<nat>): set<int> {
    if r.Some? then visited + {r.value} else visited
  }

  /** One round: select the nearest unvisited vertex, mark it and relax its links. */
  method Round(graph: array2<int>, subnets: array2<int>, ghost src: nat, sptSet: array<bool>,
               dist: array<int>, prev: array<int>, purpose: array<int>,
               ghost visited: set<int>, ghost before: seq<int>, ghost g: Matrix, ghost s: Matrix)
    returns (r: Option<nat>)
    requires graph.Length1 == subnets.Length0 == subnets.Length1 == graph.Length0 == |before|
    requires sptSet.Length == dist.Length == prev.Length == purpose.Length == graph.Length0
    requires dist != prev && dist != purpose && prev != purpose
    requires g == MatrixOf(graph) && s == MatrixOf(subnets)
    requires Partial(g, graph.Length0, src, dist[..], prev[..], visited)
    requires PurposeFollows(s, graph.Length0, prev[..], purpose[..], before)
    requires Orderly(g, graph.Length0, dist[..], prev[..], visited)
    requires forall v | 0 <= v < graph.Length0 :: sptSet[v] <==> v in visited
    modifies sptSet, dist, prev, purpose
    ensures r.None? ==> forall v | 0 <= v < graph.Length0 :: v in visited || dist[v] == INFINITY
    ensures r.Some? ==> r.value < graph.Length0 && r.value !in visited && old(dist[r.value]) < INFINITY
    ensures Partial(g, graph.Length0, src, dist[..], prev[..], Visit(visited, r))
    ensures PurposeFollows(s, graph.Length0, prev[..], purpose[..], before)
    ensures Orderly(g, graph.Length0, dist[..], prev[..], Visit(visited, r))
    ensures forall v | 0 <= v < graph.Length0 :: sptSet[v] <==> v in Visit(visited, r)
  {
    r := MinDistance(dist, sptSet);
    if r.Some? {
      var u := r.value;
      ghost var dist0, prev0, purpose0 := dist[..], prev[..], purpose[..];
      sptSet[u] := true;
      Relax(graph, subnets, u, sptSet, dist, prev, purpose, visited + {u});
      RoundKeepsPartial(g, s, graph.Length0, src, visited, u,
                        dist0, prev0, purpose0, dist[..], prev[..], purpose[..]);
      RoundKeepsOrderly(g, s, graph.Length0, src, visited, u,
                        dist0, prev0, purpose0, dist[..], prev[..], purpose[..]);
      RoundKeepsPurpose(g, s, graph.Length0, visited + {u}, u,
                        dist0, prev0, purpose0, dist[..], prev[..], purpose[..], before);
    }
  }

  /** n - 1 rounds of selection and relaxation.  `picked` is false when some round found no
      vertex to select; the original then uses an uninitialised index, here the round is skipped. */
  method Dijkstra(graph: array2<int>, src: nat, dist: array<int>, prev: array<int>, purpose: array<int>,
                  subnets: array2<int>)
    returns (picked: bool)
    requires Weighted(MatrixOf(graph), graph.Length0)
    requires graph.Length1 == subnets.Length0 == subnets.Length1 == graph.Length0
    requires dist.Length == prev.Length == purpose.Length == graph.Length0 && src < graph.Length0
    requires dist != prev && dist != purpose && prev != purpose
    modifies dist, prev, purpose
    ensures Settled(MatrixOf(graph), graph.Length0, src, dist[..], prev[..])
    ensures FirstTight(MatrixOf(graph), graph.Length0, dist[..], prev[..])
    ensures PurposeFollows(MatrixOf(subnets), graph.Length0, prev[..], purpose[..], old(purpose[..]))
    ensures picked <==> |WithinReach(MatrixOf(graph), graph.Length0, src)| >= graph.Length0 - 1
  {
    var n := graph.Length0;
    var sptSet := new bool[n];
    for i := 0 to n
      invariant forall k | 0 <= k < i :: dist[k] == INFINITY && !sptSet[k] && prev[k] == -1
      invariant purpose[..] == old(purpose[..])
    {
      dist[i] := INFINITY;
      sptSet[i] := false;
      prev[i] := -1;
    }
    dist[src] := 0;
    ghost var visited;
    picked, visited := Rounds(graph, subnets, src, sptSet, dist, prev, purpose);
    Finish(MatrixOf(graph), n, src, dist[..], prev[..], visited, picked);
  }

  method Rounds(graph: array2<int>, subnets: array2<int>, ghost src: nat, sptSet: array<bool>,
                dist: array<int>, prev: array<int>, purpose: array<int>)
    returns (picked: bool, ghost visited: set<int>)
    requires graph.Length1 == subnets.Length0 == subnets.Length1 == graph.Length0
    requires sptSet.Length == dist.Length == prev.Length == purpose.Length == graph.Length0
    requires dist != prev && dist != purpose && prev != purpose
    requires Partial(MatrixOf(graph), graph.Length0, src, dist[..], prev[..], {})
    requires forall v | 0 <= v < graph.Length0 :: !sptSet[v] && prev[v] == -1
    modifies sptSet, dist, prev, purpose
    ensures Partial(MatrixOf(graph), graph.Length0, src, dist[..], prev[..], visited)
    ensures PurposeFollows(MatrixOf(subnets), graph.Length0, prev[..], purpose[..], old(purpose[..]))
    ensures Orderly(MatrixOf(graph), graph.Length0, dist[..], prev[..], visited)
    ensures AllPicked(picked, visited, graph.Length0 - 1, dist[..])
  {
    ghost var g, s := MatrixOf(graph), MatrixOf(subnets);
    visited := {};
    picked := true;
    for count := 0 to graph.Length0 - 1
      invariant Partial(g, graph.Length0, src, dist[..], prev[..], visited)
      invariant forall v | 0 <= v < graph.Length0 :: sptSet[v] <==> v in visited
      invariant PurposeFollows(s, graph.Length0, prev[..], purpose[..], old(purpose[..]))
      invariant Orderly(g, graph.Length0, dist[..], prev[..], visited)
      invariant AllPicked(picked, visited, count, dist[..])
    {
      var r := Round(graph, subnets, src, sptSet, dist, prev, purpose, visited, old(purpose[..]), g, s);
      if r.None? {
        picked := false;
      }
      visited := Visit(visited, r);
    }
  }

  /** Either each of the `count` rounds selected a vertex, or the vertices in reach have run out. */
  ghost predicate AllPicked(picked: bool, visited: set<int>, count: int, dist: seq<int>) {
    if picked then |visited| == count
    else |visited| < count && forall v | 0 <= v < |dist| :: v in visited || dist[v] == INFINITY
  }

  /** At most one vertex is left unvisited in reach, and rounds found a vertex while there was one. */
  lemma PartialOutOfReach(g: Matrix, n: nat, src: int, dist: seq<int>, prev: seq<int>, visited: set<int>, picked: bool)
    requires Partial(g, n, src, dist, prev, visited)
    requires AllPicked(picked, visited, n - 1, dist)
    ensures forall u, v | 0 <= u < n && 0 <= v < n && u !in visited && v !in visited ::
      u == v || dist[u] == dist[v] == INFINITY
    ensures picked <==> |InReach(dist)| >= n - 1
  {
    hide Link, Tight, NoFarther;
    if picked {
      SubsetSize(visited, InReach(dist));
      forall u, v | 0 <= u < n && 0 <= v < n && u !in visited && v !in visited ensures u == v {
        SubsetSize(visited + {u} + {v}, Below(n));
      }
    } else {
      SubsetSize(InReach(dist), visited);
    }
  }

  lemma ReachIsRecorded(g: Matrix, n: nat, src: int, dist: seq<int>, prev: seq<int>)
    requires Settled(g, n, src, dist, prev) && |dist| == n
    ensures WithinReach(g, n, src) == InReach(dist)
  {
    hide Settled;
    forall v | 0 <= v < n ensures v in WithinReach(g, n, src) <==> v in InReach(dist) {
      SettledIsShortest(g, n, src, dist, prev, v);
    }
  }

  lemma Finish(g: Matrix, n: nat, src: int, dist: seq<int>, prev: seq<int>, visited: set<int>, picked: bool)
    requires Partial(g, n, src, dist, prev, visited)
    requires AllPicked(picked, visited, n - 1, dist) && Orderly(g, n, dist, prev, visited)
    ensures Settled(g, n, src, dist, prev) && FirstTight(g, n, dist, prev)
    ensures picked <==> |WithinReach(g, n, src)| >= n - 1
  {
    hide WithinReach, InReach, Link, Tight, NoFarther;
    PartialOutOfReach(g, n, src, dist, prev, visited, picked);
    PartialBecomesSettled(g, n, src, dist, prev, visited);
    PartialBecomesFirstTight(g, n, src, dist, prev, visited);
    ReachIsRecorded(g, n, src, dist, prev);
  }

  /** A source without links reaches nothing else: from three vertices on, the second round finds no
      vertex, and the original goes on with an index that was never set. */
  lemma IsolatedSourceMissesRound(g: Matrix, n: nat, src: nat)
    requires Square(g, n) && src < n && n >= 3 && forall v | 0 <= v < n :: g[src][v] == 0
    ensures |WithinReach(g, n, src)| < n - 1
  {
    forall v | v in WithinReach(g, n, src) ensures v in {src} {
      var p :| IsPath(g, src, v, p) && Weight(g, p) < INFINITY;
      assert |p| > 1 ==> Link(g, p[0], p[1]);
    }
    SubsetSize(WithinReach(g, n, src), {src});
  }
}
