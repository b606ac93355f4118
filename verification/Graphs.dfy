// Finite directed graphs, paths and reachability.
module Graphs {

  type Graph = map<nat, set<nat>>

  ghost predicate Closed(g: Graph) {
    forall n :: n in g ==> g[n] <= g.Keys
  }

  ghost predicate IsPath(g: Graph, p: seq<nat>) {
    && p != []
    && (forall i :: 0 <= i < |p| ==> p[i] in g)
    && (forall i, j :: 0 <= i < j < |p| && j == i + 1 ==> p[j] in g[p[i]])
  }

  ghost predicate IsPathBetween(g: Graph, a: nat, b: nat, p: seq<nat>) {
    IsPath(g, p) && p[0] == a && p[|p| - 1] == b
  }

  ghost predicate Reaches(g: Graph, a: nat, b: nat) {
    exists p :: IsPathBetween(g, a, b, p)
  }

  // Mutual reachability: the two nodes lie in one strongly connected component.
  ghost predicate SameScc(g: Graph, a: nat, b: nat) {
    Reaches(g, a, b) && Reaches(g, b, a)
  }

  lemma ReachesSelf(g: Graph, a: nat)
    requires a in g
    ensures Reaches(g, a, a)
  {
    assert IsPathBetween(g, a, a, [a]);
  }

  lemma ReachesEdge(g: Graph, a: nat, b: nat)
    requires a in g && b in g && b in g[a]
    ensures Reaches(g, a, b)
  {
    assert IsPathBetween(g, a, b, [a, b]);
  }

  lemma ReachesTransitive(g: Graph, a: nat, b: nat, c: nat)
    requires Reaches(g, a, b) && Reaches(g, b, c)
    ensures Reaches(g, a, c)
  {
    var p :| IsPathBetween(g, a, b, p);
    var q :| IsPathBetween(g, b, c, q);
    var r := p + q[1..];
    forall i | 0 <= i < |r| - 1 ensures r[i] in g && r[i + 1] in g[r[i]] {
      if i == |p| - 1 {
        assert r[i] == q[0] && r[i + 1] == q[1];
      } else if i >= |p| {
        assert r[i] == q[i - |p| + 1] && r[i + 1] == q[i - |p| + 2];
      }
    }
    assert IsPathBetween(g, a, c, r);
  }

  // A set closed under successors holds everything its members reach.
  lemma {:induction false} PathStaysInside(g: Graph, inside: set<nat>, p: seq<nat>)
    requires IsPath(g, p) && p[0] in inside
    requires forall n :: n in inside && n in g ==> g[n] <= inside
    ensures p[|p| - 1] in inside
  {
    if |p| > 1 {
      PathStaysInside(g, inside, p[1..]);
    }
  }

  lemma ReachesInside(g: Graph, inside: set<nat>, a: nat, b: nat)
    requires Reaches(g, a, b) && a in inside
    requires forall n :: n in inside && n in g ==> g[n] <= inside
    ensures b in inside
  {
    var p :| IsPathBetween(g, a, b, p);
    PathStaysInside(g, inside, p);
  }
}
