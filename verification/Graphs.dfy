/** Dependency graphs given by lists: walks, cycles, and orders that put dependencies first. */
module Graphs {
  type Graph = map<string, seq<string>>

  /** An id without an entry has no dependencies, as a lookup in a Go map yields the zero value. */
  function Deps(g: Graph, id: string): seq<string> {
    if id in g then g[id] else []
  }

  predicate IsPath(g: Graph, p: seq<string>) {
    forall i :: 0 <= i < |p| - 1 ==> p[i + 1] in Deps(g, p[i])
  }

  predicate NoRepeats(p: seq<string>) {
    forall i, j :: 0 <= i < j < |p| ==> p[i] != p[j]
  }

  /** A walk that comes back to a node it has already passed. */
  predicate Lasso(g: Graph, p: seq<string>) {
    |p| >= 2 && IsPath(g, p) && p[|p| - 1] in p[..|p| - 1]
  }

  predicate Cycle(g: Graph, p: seq<string>) {
    |p| >= 2 && IsPath(g, p) && p[0] == p[|p| - 1]
  }

  ghost predicate CycleReachable(g: Graph, roots: set<string>) {
    exists p :: Lasso(g, p) && p[0] in roots
  }

  ghost predicate Cyclic(g: Graph) {
    exists p :: Cycle(g, p)
  }

  /** Every dependency of a listed node is listed before it. */
  predicate Topological(g: Graph, order: seq<string>) {
    && NoRepeats(order)
    && forall i, d :: 0 <= i < |order| && d in Deps(g, order[i]) ==> d in order[..i]
  }

  lemma SubPath(g: Graph, p: seq<string>, from: nat)
    requires IsPath(g, p) && from <= |p|
    ensures IsPath(g, p[from..])
  {
    forall k | 0 <= k < |p[from..]| - 1
      ensures p[from..][k + 1] in Deps(g, p[from..][k])
    {
      assert p[from + k + 1] in Deps(g, p[from + k]);
    }
  }

  /** A cycle may be entered at any of its nodes, and is then a walk that closes on itself. */
  lemma RotatedCycle(g: Graph, p: seq<string>, k: nat) returns (q: seq<string>)
    requires Cycle(g, p) && k < |p|
    ensures Cycle(g, q) && Lasso(g, q) && q[0] == p[k]
  {
    var n := |p| - 1;
    if k == n {
      q := p;
    } else {
      q := p[k..] + p[1..k + 1];
      forall i | 0 <= i < n
        ensures q[i + 1] in Deps(g, q[i])
      {
        if i < n - k {
          assert q[i] == p[k + i] && q[i + 1] == p[k + i + 1];
          assert p[k + i + 1] in Deps(g, p[k + i]);
        } else {
          var m := i - (n - k);
          assert q[i] == p[m] && q[i + 1] == p[m + 1];
          assert p[m + 1] in Deps(g, p[m]);
        }
      }
    }
    assert q[..|q| - 1][0] == q[0];
  }

  /** Once every dependency is a root, reaching a cycle and having one are the same. */
  lemma CycleReachableIffCyclic(g: Graph, roots: set<string>)
    requires forall k, d :: k in g && d in g[k] ==> d in roots
    ensures CycleReachable(g, roots) <==> Cyclic(g)
  {
    forall p | Lasso(g, p)
      ensures Cyclic(g)
    {
      var i :| 0 <= i < |p| - 1 && p[i] == p[|p| - 1];
      var c := p[i..];
      SubPath(g, p, i);
      assert Cycle(g, c);
    }
    forall p | Cycle(g, p)
      ensures CycleReachable(g, roots)
    {
      assert p[..|p| - 1][0] == p[0];
      assert p[|p| - 2 + 1] in Deps(g, p[|p| - 2]);
      assert Lasso(g, p);
    }
  }

  /** Along a walk inside a topological order positions strictly fall. */
  lemma {:induction false} WalkDescends(g: Graph, order: seq<string>, p: seq<string>, at: nat)
    requires Topological(g, order) && IsPath(g, p) && |p| >= 1
    requires at < |order| && order[at] == p[0]
    ensures forall k :: 0 < k < |p| ==> p[k] in order[..at]
    decreases |p|
  {
    if |p| > 1 {
      assert p[1] in order[..at];
      var next :| 0 <= next < at && order[next] == p[1];
      SubPath(g, p, 1);
      WalkDescends(g, order, p[1..], next);
      forall k | 1 < k < |p|
        ensures p[k] in order[..at]
      {
        assert p[k] == p[1..][k - 1];
      }
    }
  }

  /** A topological order over all roots rules out every reachable cycle. */
  lemma TopologicalHasNoLasso(g: Graph, order: seq<string>, roots: set<string>)
    requires Topological(g, order) && forall r :: r in roots ==> r in order
    ensures !CycleReachable(g, roots)
  {
    forall p | |p| >= 2 && IsPath(g, p) && p[0] in roots
      ensures p[|p| - 1] !in p[..|p| - 1]
    {
      var start :| 0 <= start < |order| && order[start] == p[0];
      WalkDescends(g, order, p, start);
      forall i | 0 <= i < |p| - 1
        ensures p[i] != p[|p| - 1]
      {
        var at :| 0 <= at < |order| && order[at] == p[i];
        SubPath(g, p, i);
        WalkDescends(g, order, p[i..], at);
        assert p[i..][|p| - 1 - i] == p[|p| - 1];
      }
    }
  }
}
