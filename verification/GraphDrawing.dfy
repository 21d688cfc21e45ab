/** Turning a router's database into the adjacency matrix its shortest-path run works on. */
module GraphDrawing {
  import opened Common
  import opened Graphs
  import opened Dijkstra
  import opened LinkState
  import opened Forwarding
  import opened MospfDaemon

  /** The vertex number of each router identity; the original exits on an unknown one. */
  type Index = map<U32, nat>

  /** A directed link between two router identities. */
  type Hop = (U32, U32)

  ghost function RowHops(from: U32, adv: seq<Lsa>): set<Hop> { set a | a in adv :: (from, a.rid) }

  ghost function DbHops(db: seq<Lsu>): set<Hop> { set u, a | u in db && a in u.adv :: (u.rid, a.rid) }

  /** What a router draws: every stored advertisement, and its own. */
  ghost function DrawnHops(r: Router): set<Hop> { DbHops(r.db) + RowHops(r.rid, Advertisement(r.ifaces)) }

  ghost predicate AllKnown(idx: Index, hops: set<Hop>) {
    forall h | h in hops :: h.0 in idx && h.1 in idx
  }

  ghost function Edges(idx: Index, hops: set<Hop>): set<(nat, nat)> {
    set h | h in hops && h.0 in idx && h.1 in idx :: (idx[h.0], idx[h.1])
  }

  /** The matrix g with a 1 at every pair of `edges`. */
  ghost predicate Painted(g: Matrix, edges: set<(nat, nat)>, h: Matrix) {
    && |h| == |g|
    && forall i | 0 <= i < |g| :: |h[i]| == |g[i]| &&
         forall j | 0 <= j < |g[i]| :: h[i][j] == if (i, j) in edges then 1 else g[i][j]
  }

  ghost predicate Sized(graph: array2<int>, idx: Index) {
    graph.Length0 == graph.Length1 && forall r | r in idx :: idx[r] < graph.Length0
  }

  // ---- drawing

  ghost predicate Drawn(idx: Index, base: Matrix, hops: set<Hop>, g: Matrix) {
    AllKnown(idx, hops) && Painted(base, Edges(idx, hops), g)
  }

  /** One link; false where the original would exit. */
  method Mark(graph: array2<int>, idx: Index, from: U32, to: U32, ghost base: Matrix, ghost hops: set<Hop>)
    returns (ok: bool)
    requires Sized(graph, idx) && Drawn(idx, base, hops, MatrixOf(graph))
    modifies graph
    ensures ok <==> from in idx && to in idx
    ensures ok ==> Drawn(idx, base, hops + {(from, to)}, MatrixOf(graph))
  {
    ok := from in idx && to in idx;
    if ok {
      graph[idx[from], idx[to]] := 1;
      assert Edges(idx, hops + {(from, to)}) == Edges(idx, hops) + {(idx[from], idx[to])};
    }
  }

  method DrawRow(graph: array2<int>, idx: Index, u: Lsu, ghost base: Matrix, ghost hops: set<Hop>)
    returns (ok: bool)
    requires Sized(graph, idx) && Drawn(idx, base, hops, MatrixOf(graph))
    modifies graph
    ensures ok <==> AllKnown(idx, RowHops(u.rid, u.adv))
    ensures ok ==> Drawn(idx, base, hops + RowHops(u.rid, u.adv), MatrixOf(graph))
  {
    ok := true;
    ghost var done: set<Hop> := {};
    assert hops + done == hops;
    for i := 0 to |u.adv|
      invariant done == RowHops(u.rid, u.adv[..i])
      invariant Drawn(idx, base, hops + done, MatrixOf(graph))
    {
      ok := Mark(graph, idx, u.rid, u.adv[i].rid, base, hops + done);
      if !ok {
        assert (u.rid, u.adv[i].rid) in RowHops(u.rid, u.adv);
        return;
      }
      done := done + {(u.rid, u.adv[i].rid)};
      RowHopsSnoc(u.rid, u.adv, i);
      assert hops + done == hops + RowHops(u.rid, u.adv[..i]) + {(u.rid, u.adv[i].rid)};
    }
    assert u.adv[..|u.adv|] == u.adv;
  }

  lemma RowHopsSnoc(from: U32, adv: seq<Lsa>, i: nat)
    requires i < |adv|
    ensures RowHops(from, adv[..i + 1]) == RowHops(from, adv[..i]) + {(from, adv[i].rid)}
  {
    assert adv[..i + 1] == adv[..i] + [adv[i]];
  }

  method DrawNbrs(graph: array2<int>, idx: Index, rid: U32, nbrs: seq<Nbr>, ghost base: Matrix, ghost hops: set<Hop>)
    returns (ok: bool)
    requires Sized(graph, idx) && Drawn(idx, base, hops, MatrixOf(graph))
    modifies graph
    ensures ok <==> AllKnown(idx, NbrHops(rid, nbrs))
    ensures ok ==> Drawn(idx, base, hops + NbrHops(rid, nbrs), MatrixOf(graph))
  {
    ok := true;
    ghost var done: set<Hop> := {};
    assert hops + done == hops;
    for i := 0 to |nbrs|
      invariant done == NbrHops(rid, nbrs[..i])
      invariant Drawn(idx, base, hops + done, MatrixOf(graph))
    {
      ok := Mark(graph, idx, rid, nbrs[i].id, base, hops + done);
      if !ok {
        assert (rid, nbrs[i].id) in NbrHops(rid, nbrs);
        return;
      }
      assert nbrs[..i + 1] == nbrs[..i] + [nbrs[i]];
      done := done + {(rid, nbrs[i].id)};
      assert hops + done == hops + NbrHops(rid, nbrs[..i]) + {(rid, nbrs[i].id)};
    }
    assert nbrs[..|nbrs|] == nbrs;
  }

  ghost function NbrHops(rid: U32, nbrs: seq<Nbr>): set<Hop> { set n | n in nbrs :: (rid, n.id) }

  ghost function LanHops(rid: U32, f: Iface): set<Hop> {
    if f.ip == LAN_IP1 then {(rid, LAN_RID1)} else if f.ip == LAN_IP2 then {(rid, LAN_RID2)} else {}
  }

  method DrawLan(graph: array2<int>, idx: Index, rid: U32, f: Iface, ghost base: Matrix, ghost hops: set<Hop>)
    returns (ok: bool)
    requires Sized(graph, idx) && Drawn(idx, base, hops, MatrixOf(graph))
    modifies graph
    ensures ok <==> AllKnown(idx, LanHops(rid, f))
    ensures ok ==> Drawn(idx, base, hops + LanHops(rid, f), MatrixOf(graph))
  {
    ok := true;
    if f.ip == LAN_IP1 {
      ok := Mark(graph, idx, rid, LAN_RID1, base, hops);
      assert (rid, LAN_RID1) in LanHops(rid, f);
    }
    if f.ip == LAN_IP2 {
      ok := Mark(graph, idx, rid, LAN_RID2, base, hops);
      assert (rid, LAN_RID2) in LanHops(rid, f);
    }
    assert LanHops(rid, f) == {} ==> hops + LanHops(rid, f) == hops;
  }

  ghost function IfaceHops(rid: U32, ifaces: seq<Iface>): set<Hop> {
    if ifaces == [] then {}
    else
      var f := ifaces[|ifaces| - 1];
      IfaceHops(rid, ifaces[..|ifaces| - 1]) + LanHops(rid, f) + NbrHops(rid, f.nbrs)
  }

  /** A router draws for itself exactly the links it advertises to the others. */
  lemma {:induction false} OwnHopsAreAdvertised(rid: U32, ifaces: seq<Iface>)
    ensures IfaceHops(rid, ifaces) == RowHops(rid, Advertisement(ifaces))
  {
    if ifaces != [] {
      var front, f := ifaces[..|ifaces| - 1], ifaces[|ifaces| - 1];
      OwnHopsAreAdvertised(rid, front);
      NbrHopsAreAdvertised(rid, f.nbrs);
      RowHopsConcat(rid, Advertisement(front), LanAdv(f));
      RowHopsConcat(rid, Advertisement(front) + LanAdv(f), NbrAdv(f.nbrs));
      assert RowHops(rid, LanAdv(f)) == LanHops(rid, f) by {
        assert f.ip == LAN_IP1 ==> Lsa(f.subnet, f.mask, LAN_RID1) in LanAdv(f);
        assert f.ip == LAN_IP2 ==> Lsa(f.subnet, f.mask, LAN_RID2) in LanAdv(f);
      }
    }
  }

  lemma RowHopsConcat(rid: U32, a: seq<Lsa>, b: seq<Lsa>)
    ensures RowHops(rid, a + b) == RowHops(rid, a) + RowHops(rid, b)
  {
  }

  lemma {:induction false} NbrHopsAreAdvertised(rid: U32, nbrs: seq<Nbr>)
    ensures NbrHops(rid, nbrs) == RowHops(rid, NbrAdv(nbrs))
  {
    if nbrs != [] {
      var front, n := nbrs[..|nbrs| - 1], nbrs[|nbrs| - 1];
      NbrHopsAreAdvertised(rid, front);
      var last := [Lsa(n.subnet, n.mask, n.id)];
      RowHopsConcat(rid, NbrAdv(front), last);
      assert RowHops(rid, last) == {(rid, n.id)} by {
        assert last[0] in last;
      }
      assert nbrs == front + [n];
    }
  }

  lemma {:induction false} IfaceHopsContain(rid: U32, ifaces: seq<Iface>, k: nat)
    requires k < |ifaces|
    ensures LanHops(rid, ifaces[k]) + NbrHops(rid, ifaces[k].nbrs) <= IfaceHops(rid, ifaces)
    decreases |ifaces|
  {
    if k < |ifaces| - 1 {
      IfaceHopsContain(rid, ifaces[..|ifaces| - 1], k);
    }
  }

  /** The router's own links, interface by interface: host networks, then neighbours. */
  method DrawOwn(graph: array2<int>, idx: Index, rid: U32, ifaces: seq<Iface>, ghost base: Matrix, ghost hops: set<Hop>)
    returns (ok: bool)
    requires Sized(graph, idx) && Drawn(idx, base, hops, MatrixOf(graph))
    modifies graph
    ensures ok <==> AllKnown(idx, IfaceHops(rid, ifaces))
    ensures ok ==> Drawn(idx, base, hops + IfaceHops(rid, ifaces), MatrixOf(graph))
  {
    ok := true;
    ghost var done: set<Hop> := {};
    assert hops + done == hops;
    for k := 0 to |ifaces|
      invariant done == IfaceHops(rid, ifaces[..k])
      invariant Drawn(idx, base, hops + done, MatrixOf(graph))
    {
      ghost var lan, nbrs := LanHops(rid, ifaces[k]), NbrHops(rid, ifaces[k].nbrs);
      IfaceHopsContain(rid, ifaces, k);
      ok := DrawLan(graph, idx, rid, ifaces[k], base, hops + done);
      if !ok {
        return;
      }
      ok := DrawNbrs(graph, idx, rid, ifaces[k].nbrs, base, hops + done + lan);
      if !ok {
        return;
      }
      assert hops + done + lan + nbrs == hops + (done + lan + nbrs);
      assert ifaces[..k + 1][..k] == ifaces[..k];
      done := done + lan + nbrs;
    }
    assert ifaces[..|ifaces|] == ifaces;
  }

  /** The whole drawing; it succeeds exactly when every identity met has a vertex. */
  method DrawGraph(d: Daemon, graph: array2<int>, idx: Index)
    returns (ok: bool)
    requires Sized(graph, idx)
    modifies graph
    ensures ok <==> AllKnown(idx, DrawnHops(d.State()))
    ensures ok ==> Painted(old(MatrixOf(graph)), Edges(idx, DrawnHops(d.State())), MatrixOf(graph))
  {
    ok := true;
    ghost var base, done: set<Hop> := MatrixOf(graph), {};
    for k := 0 to |d.db|
      invariant done == DbHops(d.db[..k])
      invariant Drawn(idx, base, done, MatrixOf(graph))
    {
      ghost var row := RowHops(d.db[k].rid, d.db[k].adv);
      assert row <= DrawnHops(d.State());
      ok := DrawRow(graph, idx, d.db[k], base, done);
      if !ok {
        return;
      }
      assert d.db[..k + 1] == d.db[..k] + [d.db[k]];
      done := done + row;
    }
    assert d.db[..|d.db|] == d.db;
    OwnHopsAreAdvertised(d.rid, d.ifaces);
    ok := DrawOwn(graph, idx, d.rid, d.ifaces, base, done);
  }

  // ---- symmetrisation

  /** Entry (i, j) after mirroring: the upper-triangle entry wins unless it is zero. */
  ghost function Mirrored(g: Matrix, i: int, j: int): int
    requires Square(g, |g|) && 0 <= i < |g| && 0 <= j < |g|
  {
    var a, b := if i <= j then i else j, if i <= j then j else i;
    if g[a][b] != 0 then g[a][b] else g[b][a]
  }

  ghost predicate IsMirror(g: Matrix, r: Matrix) {
    && Square(g, |g|) && Square(r, |g|)
    && forall i, j | 0 <= i < |g| && 0 <= j < |g| :: r[i][j] == Mirrored(g, i, j)
  }

  /** The value at (x, y) when the scan is about to visit (i, j). */
  ghost function Midway(g: Matrix, i: int, j: int, x: int, y: int): int
    requires Square(g, |g|) && 0 <= x < |g| && 0 <= y < |g|
  {
    if y < i || (y == i && x < j) then Mirrored(g, x, y) else g[x][y]
  }

  /** The in-place scan, whose later iterations read entries that earlier ones wrote. */
  method MirrorGraph(graph: array2<int>)
    requires graph.Length0 == graph.Length1
    modifies graph
    ensures IsMirror(old(MatrixOf(graph)), MatrixOf(graph))
  {
    var n := graph.Length0;
    ghost var g := MatrixOf(graph);
    for i := 0 to n
      invariant forall x, y | 0 <= x < n && 0 <= y < n :: graph[x, y] == Midway(g, i, 0, x, y)
    {
      for j := 0 to n
        invariant forall x, y | 0 <= x < n && 0 <= y < n :: graph[x, y] == Midway(g, i, j, x, y)
      {
        if graph[i, j] != 0 {
          graph[j, i] := graph[i, j];
        }
      }
    }
  }

  lemma MirrorIsSymmetric(g: Matrix, r: Matrix)
    requires IsMirror(g, r)
    ensures Symmetric(r, |g|)
    ensures forall i, j | 0 <= i <= j < |g| :: r[i][j] == if g[i][j] != 0 then g[i][j] else g[j][i]
    ensures forall r' | IsMirror(r, r') :: r' == r
  {
    forall r' | IsMirror(r, r') ensures r' == r {
      forall i | 0 <= i < |g| ensures r'[i] == r[i] {
        forall j | 0 <= j < |g| ensures r'[i][j] == r[i][j] {
          assert r'[i][j] == Mirrored(r, i, j);
        }
      }
    }
  }

  // ---- the matrix a router works on

  ghost predicate Unit(g: Matrix, n: nat) {
    Square(g, n) && forall i, j | 0 <= i < n && 0 <= j < n :: g[i][j] == 0 || g[i][j] == 1
  }

  ghost function Zeros(n: nat): Matrix { seq(n, i => seq(n, j => 0)) }

  /** The matrix a router works on: its links painted on zeros, then mirrored. */
  ghost predicate GraphFor(idx: Index, n: nat, hops: set<Hop>, g: Matrix) {
    exists d :: Painted(Zeros(n), Edges(idx, hops), d) && IsMirror(d, g)
  }

  ghost predicate EitherWay(edges: set<(nat, nat)>, i: nat, j: nat) { (i, j) in edges || (j, i) in edges }

  lemma GraphMeaning(idx: Index, n: nat, hops: set<Hop>, g: Matrix)
    requires GraphFor(idx, n, hops, g)
    ensures Unit(g, n) && Weighted(g, n) && Symmetric(g, n)
    ensures forall i, j | 0 <= i < n && 0 <= j < n :: Link(g, i, j) <==> EitherWay(Edges(idx, hops), i, j)
  {
    var d :| Painted(Zeros(n), Edges(idx, hops), d) && IsMirror(d, g);
    assert forall i | 0 <= i < n :: |Zeros(n)[i]| == n && |d[i]| == n;
    MirrorIsSymmetric(d, g);
    forall i, j | 0 <= i < n && 0 <= j < n
      ensures g[i][j] == if EitherWay(Edges(idx, hops), i, j) then 1 else 0
    {
      assert g[i][j] == Mirrored(d, i, j);
      assert d[i][j] == (if (i, j) in Edges(idx, hops) then 1 else 0);
      assert d[j][i] == (if (j, i) in Edges(idx, hops) then 1 else 0);
    }
  }

  lemma GraphUnique(idx: Index, n: nat, hops: set<Hop>, g: Matrix, g': Matrix)
    requires GraphFor(idx, n, hops, g) && GraphFor(idx, n, hops, g')
    ensures g == g'
  {
    GraphMeaning(idx, n, hops, g);
    GraphMeaning(idx, n, hops, g');
    forall i | 0 <= i < n ensures g[i] == g'[i] {
      forall j | 0 <= j < n ensures g[i][j] == g'[i][j] {
        assert Link(g, i, j) <==> Link(g', i, j);
      }
    }
  }
}
