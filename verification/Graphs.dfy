/** Weighted adjacency matrices, paths and distances: the reference notions that the
    shortest-path code is measured against.  A zero entry means "no link", as in the router. */
module Graphs {

  type Matrix = seq<seq<int>>

  /** The router's stand-in for an infinite distance. */
  const INFINITY := 99999

  ghost predicate Square(g: Matrix, n: nat) {
    |g| == n && forall i | 0 <= i < n :: |g[i]| == n
  }

  /** An n-by-n matrix without negative weights. */
  ghost predicate Weighted(g: Matrix, n: nat) {
    Square(g, n) && forall i, j | 0 <= i < n && 0 <= j < n :: g[i][j] >= 0
  }

  ghost predicate Link(g: Matrix, u: int, v: int) {
    0 <= u < |g| && 0 <= v < |g| && v < |g[u]| && g[u][v] != 0
  }

  ghost predicate IsPath(g: Matrix, s: int, t: int, p: seq<int>) {
    && |p| > 0 && p[0] == s && p[|p| - 1] == t
    && 0 <= s < |g| && 0 <= t < |g|
    && forall k | 0 <= k < |p| - 1 :: Link(g, p[k], p[k + 1])
  }

  ghost function Weight(g: Matrix, p: seq<int>): int {
    if |p| < 2 || !Link(g, p[0], p[1]) then 0 else g[p[0]][p[1]] + Weight(g, p[1..])
  }

  /** d is the least weight of any path from s to t, and some path attains it. */
  ghost predicate IsDistance(g: Matrix, s: int, t: int, d: int) {
    && (exists p :: IsPath(g, s, t, p) && Weight(g, p) == d)
    && forall p | IsPath(g, s, t, p) :: d <= Weight(g, p)
  }

  lemma {:induction false} WeightSnoc(g: Matrix, s: int, t: int, p: seq<int>, v: int)
    requires IsPath(g, s, t, p) && Link(g, t, v)
    ensures IsPath(g, s, v, p + [v])
    ensures Weight(g, p + [v]) == Weight(g, p) + g[t][v]
    decreases |p|
  {
    var q := p + [v];
    forall k | 0 <= k < |q| - 1 ensures Link(g, q[k], q[k + 1]) {
      if k < |p| - 1 {
        assert Link(g, p[k], p[k + 1]);
      }
    }
    if |p| > 1 {
      assert Link(g, p[0], p[1]);
      TailPath(g, s, t, p);
      WeightSnoc(g, p[1], t, p[1..], v);
      assert q[1..] == p[1..] + [v];
    } else {
      assert q[1..] == [v];
    }
  }

  lemma TailPath(g: Matrix, s: int, t: int, p: seq<int>)
    requires IsPath(g, s, t, p) && |p| > 1
    ensures Link(g, s, p[1]) && IsPath(g, p[1], t, p[1..])
    ensures Weight(g, p) == g[s][p[1]] + Weight(g, p[1..])
  {
    assert Link(g, p[0], p[1]);
    forall k | 0 <= k < |p[1..]| - 1 ensures Link(g, p[1..][k], p[1..][k + 1]) {
      assert Link(g, p[k + 1], p[k + 2]);
    }
  }

  lemma ConsPath(g: Matrix, s: int, h: int, t: int, p: seq<int>)
    requires IsPath(g, h, t, p) && Link(g, s, h)
    ensures IsPath(g, s, t, [s] + p)
    ensures Weight(g, [s] + p) == g[s][h] + Weight(g, p)
  {
    var q := [s] + p;
    forall k | 0 <= k < |q| - 1 ensures Link(g, q[k], q[k + 1]) {
      if k > 0 {
        assert Link(g, p[k - 1], p[k]);
      }
    }
    assert q[1..] == p;
  }

  /** Every vertex on a path of a square matrix is a vertex of the matrix. */
  lemma PathInRange(g: Matrix, n: nat, s: int, t: int, p: seq<int>)
    requires Square(g, n) && IsPath(g, s, t, p)
    ensures forall k | 0 <= k < |p| :: 0 <= p[k] < n
  {
    forall k | 0 <= k < |p| ensures 0 <= p[k] < n {
      if k < |p| - 1 {
        assert Link(g, p[k], p[k + 1]);
      }
    }
  }
}
