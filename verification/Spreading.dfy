/** Populations in which every member is at some time replaced by its offspring: chains of descent, and
    the size of a family whose chains are bounded. */
module Spreading {
  /** Each element of c is among the offspring of the one before. */
  ghost predicate Descent<T(!new)>(next: T -> seq<T>, c: seq<T>) {
    |c| > 0 && forall i | 0 <= i < |c| - 1 :: DescendsAt(next, c, i)
  }

  ghost predicate DescendsAt<T(!new)>(next: T -> seq<T>, c: seq<T>, i: nat)
    requires i + 1 < |c|
  {
    c[i + 1] in next(c[i])
  }

  lemma TailChain<T(!new)>(next: T -> seq<T>, c: seq<T>)
    requires Descent(next, c) && |c| > 1
    ensures Descent(next, c[1..])
  {
    forall i | 0 <= i < |c[1..]| - 1 ensures DescendsAt(next, c[1..], i) {
      assert DescendsAt(next, c, i + 1);
    }
  }

  /** A lasso unrolls to a chain of any length, always at one of its own elements. */
  lemma {:induction false} Unroll<T(!new)>(next: T -> seq<T>, c: seq<T>, i: nat, n: nat) returns (d: seq<T>, at: nat)
    requires Descent(next, c) && i < |c| - 1 && c[i] == c[|c| - 1]
    ensures Descent(next, d) && |d| == n + 1 && d[0] == c[0] && at < |c| - 1 && d[n] == c[at]
  {
    if n == 0 {
      d, at := [c[0]], 0;
    } else {
      var e, t := Unroll(next, c, i, n - 1);
      assert DescendsAt(next, c, t);
      at := if t + 1 == |c| - 1 then i else t + 1;
      d := e + [c[at]];
      forall j | 0 <= j < |d| - 1 ensures DescendsAt(next, d, j) {
        assert j < n - 1 ==> DescendsAt(next, e, j);
      }
    }
  }

  /** A lasso without its first element is a lasso, its loop turned by one if that element lay on it. */
  lemma PullIn<T(!new)>(next: T -> seq<T>, c: seq<T>, i: nat) returns (d: seq<T>, j: nat)
    requires Descent(next, c) && i < |c| - 1 && c[i] == c[|c| - 1]
    ensures Descent(next, d) && j < |d| - 1 && d[j] == d[|d| - 1] && d[0] == c[1] && c[1] in next(c[0])
  {
    TailChain(next, c);
    assert DescendsAt(next, c, 0);
    if i > 0 {
      d, j := c[1..], i - 1;
    } else {
      d, j := c[1..] + [c[1]], 0;
      forall k | 0 <= k < |d| - 1 ensures DescendsAt(next, d, k) {
        assert k < |c[1..]| - 1 ==> DescendsAt(next, c[1..], k);
      }
    }
  }

  // ---- chains of bounded length

  /** No chain from p is longer than k. */
  ghost predicate Bounded<T(!new)>(next: T -> seq<T>, p: T, k: nat) {
    forall c | ChainFrom(next, p, c) :: |c| <= k
  }

  ghost predicate ChainFrom<T(!new)>(next: T -> seq<T>, p: T, c: seq<T>) {
    Descent(next, c) && c[0] == p
  }

  lemma ChainCons<T(!new)>(next: T -> seq<T>, p: T, q: T, c: seq<T>)
    requires ChainFrom(next, q, c) && q in next(p)
    ensures ChainFrom(next, p, [p] + c)
  {
    var d := [p] + c;
    forall i | 0 <= i < |d| - 1 ensures DescendsAt(next, d, i) {
      assert i > 0 ==> DescendsAt(next, c, i - 1);
    }
  }

  lemma BoundedIsPositive<T(!new)>(next: T -> seq<T>, p: T, k: nat)
    requires Bounded(next, p, k)
    ensures k > 0
  {
    assert ChainFrom(next, p, [p]);
  }

  lemma OffspringBounded<T(!new)>(next: T -> seq<T>, p: T, q: T, k: nat)
    requires Bounded(next, p, k + 1) && q in next(p)
    ensures Bounded(next, q, k)
  {
    forall c | ChainFrom(next, q, c) ensures |c| <= k {
      ChainCons(next, p, q, c);
    }
  }

  /** The size of the family of p, looking k generations ahead. */
  ghost function Load<T(!new)>(next: T -> seq<T>, p: T, k: nat): nat
    decreases k, 0
  {
    if k == 0 then 0 else 1 + LoadOfAll(next, next(p), k - 1)
  }

  ghost function LoadOfAll<T(!new)>(next: T -> seq<T>, ps: seq<T>, k: nat): nat
    decreases k, 1 + |ps|
  {
    if ps == [] then 0 else LoadOfAll(next, ps[..|ps| - 1], k) + Load(next, ps[|ps| - 1], k)
  }

  lemma LoadUnfolds<T(!new)>(next: T -> seq<T>, p: T, k: nat)
    ensures Load(next, p, k + 1) == 1 + LoadOfAll(next, next(p), k)
  {
  }

  /** Looking beyond the last generation adds nothing. */
  lemma {:induction false} LoadIsStable<T(!new)>(next: T -> seq<T>, p: T, k: nat)
    requires Bounded(next, p, k)
    ensures Load(next, p, k + 1) == Load(next, p, k)
    decreases k, 0
  {
    BoundedIsPositive(next, p, k);
    AllOffspringBounded(next, p, k - 1);
    LoadsAreStable(next, next(p), k - 1);
    LoadUnfolds(next, p, k - 1);
    LoadUnfolds(next, p, k);
  }

  ghost predicate EachBounded<T(!new)>(next: T -> seq<T>, ps: seq<T>, k: nat) {
    forall q | q in ps :: Bounded(next, q, k)
  }

  lemma AllOffspringBounded<T(!new)>(next: T -> seq<T>, p: T, k: nat)
    requires Bounded(next, p, k + 1)
    ensures EachBounded(next, next(p), k)
  {
    forall q | q in next(p) ensures Bounded(next, q, k) {
      OffspringBounded(next, p, q, k);
    }
  }

  lemma {:induction false} LoadsAreStable<T(!new)>(next: T -> seq<T>, ps: seq<T>, k: nat)
    requires EachBounded(next, ps, k)
    ensures LoadOfAll(next, ps, k + 1) == LoadOfAll(next, ps, k)
    decreases k, 1 + |ps|
  {
    if ps != [] {
      LoadsAreStable(next, ps[..|ps| - 1], k);
      LoadIsStable(next, ps[|ps| - 1], k);
    }
  }

  ghost function Total<T(!new)>(next: T -> seq<T>, members: multiset<T>, k: nat): nat
    decreases |members|
  {
    if members == multiset{} then 0
    else
      var p :| p in members;
      Load(next, p, k) + Total(next, members - multiset{p}, k)
  }

  lemma {:induction false} TotalWithout<T(!new)>(next: T -> seq<T>, members: multiset<T>, k: nat, p: T)
    requires p in members
    ensures Total(next, members, k) == Load(next, p, k) + Total(next, members - multiset{p}, k)
    decreases |members|
  {
    var q :| q in members && Total(next, members, k)
      == Load(next, q, k) + Total(next, members - multiset{q}, k);
    if q != p {
      TotalWithout(next, members - multiset{q}, k, p);
      TotalWithout(next, members - multiset{p}, k, q);
      assert members - multiset{q} - multiset{p} == members - multiset{p} - multiset{q};
    }
  }

  lemma {:induction false} TotalWithMore<T(!new)>(next: T -> seq<T>, members: multiset<T>, k: nat, ps: seq<T>)
    ensures Total(next, members + multiset(ps), k) == Total(next, members, k) + LoadOfAll(next, ps, k)
    decreases |ps|
  {
    if ps == [] {
      assert members + multiset(ps) == members;
    } else {
      var front, p := ps[..|ps| - 1], ps[|ps| - 1];
      assert ps == front + [p];
      TotalWithMore(next, members, k, front);
      TotalWithout(next, members + multiset(ps), k, p);
      assert members + multiset(ps) - multiset{p} == members + multiset(front);
    }
  }

  lemma LoadOneMore<T(!new)>(next: T -> seq<T>, p: T, k: nat)
    requires Bounded(next, p, k)
    ensures Load(next, p, k) == 1 + LoadOfAll(next, next(p), k)
  {
    BoundedIsPositive(next, p, k);
    AllOffspringBounded(next, p, k - 1);
    LoadUnfolds(next, p, k - 1);
    LoadsAreStable(next, next(p), k - 1);
  }

  /** Replacing a member by its offspring takes exactly one off the total. */
  lemma TotalAfter<T(!new)>(next: T -> seq<T>, members: multiset<T>, p: T, k: nat)
    requires p in members && Bounded(next, p, k)
    ensures Total(next, members - multiset{p} + multiset(next(p)), k) + 1 == Total(next, members, k)
  {
    TotalWithout(next, members, k, p);
    TotalWithMore(next, members - multiset{p}, k, next(p));
    LoadOneMore(next, p, k);
  }
}
