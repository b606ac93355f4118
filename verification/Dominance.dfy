// Control-flow graphs, their paths from the entry block, and dominance by its definition.
module Dominance {

  // Blocks are 0 .. |succ|, the entry is block 0.
  datatype Cfg = Cfg(succ: seq<seq<nat>>, pred: seq<seq<nat>>) {

    ghost predicate Valid() {
      && |succ| > 0 && |pred| == |succ| && pred[0] == []
      && (forall x, y {:trigger y in succ[x]} :: 0 <= x < |succ| && y in succ[x] ==> 0 <= y < |succ| && x in pred[y])
      && (forall x, y {:trigger x in pred[y]} :: 0 <= y < |succ| && x in pred[y] ==> 0 <= x < |succ| && y in succ[x])
    }

    // A path of blocks from the entry.
    ghost predicate IsPath(p: seq<nat>) {
      && p != [] && p[0] == 0
      && (forall i :: 0 <= i < |p| ==> p[i] < |succ|)
      && (forall i, j :: 0 <= i < j < |p| && j == i + 1 ==> p[j] in succ[p[i]])
    }

    ghost predicate PathTo(b: nat, p: seq<nat>) {
      IsPath(p) && p[|p| - 1] == b
    }

    ghost predicate Reachable(b: nat) {
      exists p :: PathTo(b, p)
    }

    ghost predicate AllReachable() {
      forall b :: 0 <= b < |succ| ==> Reachable(b)
    }

    ghost predicate Dom(a: nat, b: nat) {
      forall p :: PathTo(b, p) ==> a in p
    }

    ghost predicate StrictlyDom(a: nat, b: nat) {
      a != b && Dom(a, b)
    }

    ghost predicate IsIdom(d: nat, b: nat) {
      && d < |succ| && StrictlyDom(d, b)
      && (forall z :: StrictlyDom(z, b) ==> Dom(z, d))
    }

    // "y" is in the dominance frontier of "x".
    ghost predicate InFrontier(x: nat, y: nat)
      requires y < |pred|
    {
      (exists q :: q in pred[y] && Dom(x, q)) && !StrictlyDom(x, y)
    }

    ghost function Doms(b: nat): set<nat> {
      set a | 0 <= a < |succ| && Dom(a, b)
    }
  }

  lemma PrefixIsPath(c: Cfg, p: seq<nat>, i: nat)
    requires c.IsPath(p) && i < |p|
    ensures c.PathTo(p[i], p[..i + 1])
  {
  }

  lemma ExtendPath(c: Cfg, p: seq<nat>, b: nat)
    requires c.Valid() && c.IsPath(p) && b in c.succ[p[|p| - 1]]
    ensures c.PathTo(b, p + [b])
  {
    var q := p + [b];
    var x := p[|p| - 1];
    assert b in c.succ[x] && b < |c.succ|;
    forall i, j | 0 <= i < j < |q| && j == i + 1 ensures q[j] in c.succ[q[i]] {
      assert q[i] == p[i];
      if j < |p| {
        assert q[j] == p[j];
      }
    }
  }

  lemma DomReflexive(c: Cfg, b: nat)
    ensures c.Dom(b, b)
  {
  }

  lemma DomTransitive(c: Cfg, a: nat, b: nat, d: nat)
    requires c.Dom(a, b) && c.Dom(b, d)
    ensures c.Dom(a, d)
  {
    forall p | c.PathTo(d, p) ensures a in p {
      assert b in p;
      var i :| 0 <= i < |p| && p[i] == b;
      PrefixIsPath(c, p, i);
      assert a in p[..i + 1];
    }
  }

  // Two blocks that dominate each other are one block: otherwise every path to one of them would
  // have a shorter one inside.
  lemma {:induction false} DomAntisymmetric(c: Cfg, a: nat, b: nat, p: seq<nat>)
    requires c.Dom(a, b) && c.Dom(b, a) && c.PathTo(a, p)
    ensures a == b
    decreases |p|
  {
    assert b in p;
    var i :| 0 <= i < |p| && p[i] == b;
    PrefixIsPath(c, p, i);
    var q := p[..i + 1];
    if a != b {
      assert a in q;
      var j :| 0 <= j < |q| && q[j] == a;
      PrefixIsPath(c, q, j);
      DomAntisymmetric(c, a, b, q[..j + 1]);
    }
  }

  // The immediate dominator of a block dominates its predecessors.
  lemma IdomDominatesPred(c: Cfg, d: nat, y: nat, q: nat)
    requires c.Valid() && y < |c.succ| && c.StrictlyDom(d, y) && q in c.pred[y]
    ensures c.Dom(d, q)
  {
    forall p | c.PathTo(q, p) ensures d in p {
      ExtendPath(c, p, y);
      assert d in p + [y];
    }
  }

  // Going up the dominator tree the set of dominators shrinks.
  lemma IdomShrinksDoms(c: Cfg, d: nat, b: nat)
    requires c.AllReachable() && b < |c.succ| && c.IsIdom(d, b)
    ensures c.Doms(d) < c.Doms(b)
  {
    forall a | a in c.Doms(d) ensures a in c.Doms(b) {
      DomTransitive(c, a, d, b);
    }
    DomReflexive(c, b);
    if c.Dom(b, d) {
      assert c.Reachable(b);
      var p :| c.PathTo(b, p);
      DomAntisymmetric(c, b, d, p);
    }
    assert b in c.Doms(b) && b !in c.Doms(d);
  }

  // A block that dominates the immediate dominator of "b" strictly from below does not exist: if
  // "d" strictly dominates "z", then "z" does not strictly dominate a block whose immediate
  // dominator is "d".
  lemma NotBetween(c: Cfg, d: nat, z: nat, b: nat)
    requires c.AllReachable() && d < |c.succ| && z < |c.succ| && c.IsIdom(d, b) && c.StrictlyDom(d, z)
    ensures !c.StrictlyDom(z, b)
  {
    if c.StrictlyDom(z, b) {
      assert c.Dom(z, d);
      assert c.Reachable(d);
      var p :| c.PathTo(d, p);
      DomAntisymmetric(c, d, z, p);
    }
  }
}
