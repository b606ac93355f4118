// What the iterated post-dominance frontier of a block is for: the blocks whose outcome decides
// whether it is executed. "c" is the control-flow graph read backwards, as in PostDominance.
module FrontierRange {
  import opened Dominance
  import opened PostDominance

  // Blocks executed one after the other.
  ghost predicate IsWalk(c: Cfg, w: seq<nat>) {
    && w != [] && (forall i :: 0 <= i < |w| ==> w[i] < |c.succ| && w[i] < |c.pred|)
    && forall i, j :: 0 <= i < j < |w| && j == i + 1 ==> w[j] in c.pred[w[i]]
  }

  // An execution that leaves "x" and comes to "b" before it comes to where all ways out of "x" join.
  ghost predicate Decides(c: Cfg, t: Tree, x: nat, b: nat, w: seq<nat>) {
    && IsWalk(c, w) && |w| >= 2 && w[0] == x && w[|w| - 1] == b
    && x in t.idom && t.idom[x] !in w[1..]
  }

  lemma PrefixIsWalk(c: Cfg, w: seq<nat>, n: nat)
    requires IsWalk(c, w) && 0 < n <= |w|
    ensures IsWalk(c, w[..n])
  {
  }

  lemma JoinWalks(c: Cfg, v: seq<nat>, u: seq<nat>)
    requires IsWalk(c, v) && IsWalk(c, u) && v[|v| - 1] == u[0]
    ensures IsWalk(c, v + u[1..])
  {
    var w := v + u[1..];
    forall i, j | 0 <= i < j < |w| && j == i + 1 ensures w[j] in c.pred[w[i]] {
      if i >= |v| - 1 {
        assert w[i] == u[i - |v| + 1] && w[j] == u[j - |v| + 1];
      }
    }
  }

  lemma StepBefore(c: Cfg, y: nat, v: seq<nat>)
    requires c.Valid() && IsWalk(c, v) && y < |c.succ| && v[0] in c.pred[y]
    ensures IsWalk(c, [y] + v)
  {
    JoinWalks(c, [y, v[0]], v);
    assert [y, v[0]] + v[1..] == [y] + v;
  }

  // A walk and a path to its end make a path to its start.
  lemma {:induction false} WalkBack(c: Cfg, w: seq<nat>, p: seq<nat>) returns (r: seq<nat>)
    requires c.Valid() && IsWalk(c, w) && c.PathTo(w[|w| - 1], p)
    ensures c.PathTo(w[0], r) && forall x :: x in r ==> x in w || x in p
    decreases |w|
  {
    if |w| == 1 {
      r := p;
    } else {
      var rest := w[1..];
      forall i, j | 0 <= i < j < |rest| && j == i + 1 ensures rest[j] in c.pred[rest[i]] {
        assert rest[i] == w[i + 1] && rest[j] == w[j + 1];
      }
      var q := WalkBack(c, rest, p);
      assert w[1] in c.pred[w[0]];
      assert w[0] in c.succ[w[1]];
      ExtendPath(c, q, w[0]);
      r := q + [w[0]];
    }
  }

  // The end of a path is a walk the other way.
  lemma {:induction false} PathBack(c: Cfg, p: seq<nat>, i: nat) returns (w: seq<nat>)
    requires c.Valid() && c.IsPath(p) && i < |p|
    ensures IsWalk(c, w) && w[0] == p[|p| - 1] && w[|w| - 1] == p[i]
    ensures forall x :: x in w ==> x in p[i..]
    decreases |p|
  {
    var n := |p| - 1;
    if i == n {
      w := [p[i]];
    } else {
      var q := p[..n];
      PrefixIsPath(c, p, n - 1);
      assert p[..n - 1 + 1] == q;
      var v := PathBack(c, q, i);
      assert p[n] in c.succ[p[n - 1]] && v[0] == p[n - 1];
      StepBefore(c, p[n], v);
      w := [p[n]] + v;
      assert p[i..] == q[i..] + [p[n]];
    }
  }

  // What post-dominates the start of a walk and is not on it post-dominates its end.
  lemma NotMetYet(c: Cfg, w: seq<nat>, d: nat)
    requires c.Valid() && IsWalk(c, w) && c.Dom(d, w[0]) && d !in w
    ensures c.Dom(d, w[|w| - 1])
  {
    forall p | c.PathTo(w[|w| - 1], p) ensures d in p {
      var r := WalkBack(c, w, p);
    }
  }

  lemma JoinNotMetYet(c: Cfg, t: Tree, x: nat, w: seq<nat>)
    requires IsTree(c, t) && IsWalk(c, w) && x == w[0] && x in t.idom && t.idom[x] !in w[1..]
    ensures c.Dom(t.idom[x], w[|w| - 1])
  {
    assert c.IsIdom(t.idom[x], x);
    NotMetYet(c, w, t.idom[x]);
  }

  /* Such an execution shows that "x" is in the iterated frontier. */

  // The last block before "b" on the way that "b" does not strictly post-dominate.
  lemma LastNotDominated(c: Cfg, t: Tree, x: nat, b: nat, w: seq<nat>) returns (i: nat)
    requires IsTree(c, t) && Decides(c, t, x, b, w) && x != b
    ensures i < |w| - 1 && !c.StrictlyDom(b, w[i])
    ensures i + 1 < |w| - 1 ==> c.StrictlyDom(b, w[i + 1])
  {
    assert b == w[1..][|w| - 2];
    var j := |w| - 1;
    while j > 0 && c.StrictlyDom(b, w[j - 1])
      invariant 0 <= j < |w|
      invariant j < |w| - 1 ==> c.StrictlyDom(b, w[j])
    {
      j := j - 1;
    }
    if j == 0 {
      var d := t.idom[x];
      assert c.IsIdom(d, x) && c.StrictlyDom(b, x);
      JoinNotMetYet(c, t, x, w);
      DominatesEachOther(c, d, b);
      assert false;
    }
    i := j - 1;
  }

  lemma {:induction false} DecidingIsInFrontier(c: Cfg, t: Tree, x: nat, b: nat, w: seq<nat>, s: set<nat>)
    requires IsTree(c, t) && Decides(c, t, x, b, w) && x != b && ClosedFrom(c, b, s)
    ensures x in s
    decreases |w|
  {
    var n := |w| - 1;
    if j :| 0 < j < n && w[j] == b {
      PrefixIsWalk(c, w, j + 1);
      DecidingIsInFrontier(c, t, x, b, w[..j + 1], s);
    } else {
      var i := LastNotDominated(c, t, x, b, w);
      DomReflexive(c, b);
      assert w[i + 1] in c.pred[w[i]] && c.Dom(b, w[i + 1]);
      assert w[i] != b;
      assert InPdf(c, b, w[i]);
      assert w[i] in Pdf(c, b);
      if w[i] != x {
        PrefixIsWalk(c, w, i + 1);
        assert forall y :: y in w[..i + 1][1..] ==> y in w[1..];
        DecidingIsInFrontier(c, t, x, w[i], w[..i + 1], s);
      }
    }
  }

  /* And all of the iterated frontier comes from such executions. */

  // A block of the frontier of "z" has an execution that decides about "z".
  lemma FrontierDecides(c: Cfg, t: Tree, y: nat, z: nat) returns (w: seq<nat>)
    requires IsTree(c, t) && z < |c.succ| && InPdf(c, z, y)
    ensures Decides(c, t, y, z, w) && c.StrictlyDom(t.idom[y], z)
  {
    var q :| q in c.pred[y] && c.Dom(z, q);
    assert y in c.succ[q] && y != 0;
    var d := t.idom[y];
    assert c.IsIdom(d, y);
    assert !c.Dom(z, d) by {
      if c.Dom(z, d) {
        DomTransitive(c, z, d, y);
      }
    }
    assert d != z by {
      DomReflexive(c, z);
    }
    IdomDominatesPred(c, d, y, q);
    assert c.Reachable(q);
    DominatorsAreComparable(c, z, d, q);
    var p :| c.PathTo(q, p);
    var i := LastAt(p, z);
    if d in p[i..] {
      NotBehindLast(c, z, d, q, p, i);
      assert false;
    }
    var v := PathBack(c, p, i);
    StepBefore(c, y, v);
    w := [y] + v;
    assert w[1..] == v;
  }

  // Behind the last "z" on a path to a block that "z" dominates there is only what "z" dominates.
  lemma NotBehindLast(c: Cfg, z: nat, d: nat, q: nat, p: seq<nat>, i: nat)
    requires c.Valid() && c.PathTo(q, p) && c.Dom(z, q)
    requires i < |p| && p[i] == z && z !in p[i + 1..] && d in p[i..]
    ensures c.Dom(z, d)
  {
    var k :| i <= k < |p| && p[k] == d;
    LaterIsDominated(c, z, d, q, p, i, k);
  }

  // A join of other ways that lies behind "z" is not met before those of "z" join.
  lemma JoinStaysAhead(c: Cfg, t: Tree, d: nat, z: nat, u: seq<nat>)
    requires IsTree(c, t) && IsWalk(c, u) && u[0] == z && z in t.idom && t.idom[z] !in u[1..] && c.StrictlyDom(d, z)
    ensures d !in u[1..]
  {
    var e := t.idom[z];
    assert c.IsIdom(e, z) && c.Dom(d, e);
    if k :| 0 < k < |u| && u[k] == d {
      PrefixIsWalk(c, u, k + 1);
      assert forall x :: x in u[..k + 1][1..] ==> x in u[1..];
      assert d == u[1..][k - 1];
      JoinNotMetYet(c, t, z, u[..k + 1]);
      DominatesEachOther(c, d, e);
      assert false;
    }
    forall x | x in u[1..] ensures x != d {
      var k :| 0 <= k < |u[1..]| && u[1..][k] == x;
      assert u[k + 1] == x;
    }
  }

  // Executions that decide, one after the other.
  lemma DecidesOnward(c: Cfg, t: Tree, y: nat, z: nat, b: nat, v: seq<nat>, u: seq<nat>) returns (w: seq<nat>)
    requires IsTree(c, t) && Decides(c, t, y, z, v) && Decides(c, t, z, b, u) && c.StrictlyDom(t.idom[y], z)
    ensures Decides(c, t, y, b, w)
  {
    JoinStaysAhead(c, t, t.idom[y], z, u);
    JoinWalks(c, v, u);
    w := v + u[1..];
    assert w[1..] == v[1..] + u[1..];
  }

  ghost function Deciding(c: Cfg, t: Tree, b: nat): set<nat> {
    set x | x in t.idom && exists w :: Decides(c, t, x, b, w)
  }

  lemma DecidingIsClosed(c: Cfg, t: Tree, b: nat)
    requires IsTree(c, t) && b < |c.succ|
    ensures ClosedFrom(c, b, Deciding(c, t, b))
  {
    forall y | y in Pdf(c, b) ensures y in Deciding(c, t, b) {
      var w := FrontierDecides(c, t, y, b);
    }
    forall z, y | z in Deciding(c, t, b) && y in Pdf(c, z) ensures y in Deciding(c, t, b) {
      var u :| Decides(c, t, z, b, u);
      var v := FrontierDecides(c, t, y, z);
      var w := DecidesOnward(c, t, y, z, b, v, u);
    }
  }

  // The iterated frontier of "b" is exactly the other blocks from which execution may come to "b"
  // before all their ways out have joined.
  lemma IteratedFrontierDecides(c: Cfg, t: Tree, b: nat, s: set<nat>, x: nat)
    requires IsTree(c, t) && 0 < b < |c.succ| && IsIteratedPdf(c, b, s) && x != b
    ensures x in s <==> exists w :: Decides(c, t, x, b, w)
  {
    DecidingIsClosed(c, t, b);
    if w :| Decides(c, t, x, b, w) {
      DecidingIsInFrontier(c, t, x, b, w, s);
    }
  }
}
