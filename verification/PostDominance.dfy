// Post-dominance frontiers. The control-flow graph is read backwards: "c.succ[b]" are the blocks that
// jump to "b", "c.pred[b]" those "b" jumps to, block 0 is the virtual exit behind every returning
// block, and "c.Dom(a, b)" says that "a" post-dominates "b".
module PostDominance {
  import opened Sequences
  import opened Dominance

  // The post-dominator tree: the immediate post-dominator of every block, and its children.
  datatype Tree = Tree(idom: map<nat, nat>, children: map<nat, seq<nat>>)

  ghost predicate IsTree(c: Cfg, t: Tree) {
    && c.Valid() && c.AllReachable()
    && (forall b: nat :: b in t.idom <==> 0 < b < |c.succ|)
    && (forall b :: b in t.idom ==> c.IsIdom(t.idom[b], b))
    && (forall b: nat :: b in t.children <==> b < |c.succ|)
    && (forall b, z :: b in t.children && z in t.children[b] ==> z in t.idom && t.idom[z] == b)
    && (forall z :: z in t.idom ==> t.idom[z] in t.children && z in t.children[t.idom[z]])
  }

  // "x" post-dominates some successor of "y" but does not strictly post-dominate "y"; "x" itself
  // is left out.
  ghost predicate InPdf(c: Cfg, x: nat, y: nat) {
    y != x && y < |c.succ| && y < |c.pred| && c.InFrontier(x, y)
  }

  ghost function Pdf(c: Cfg, x: nat): set<nat> {
    set y | 0 <= y < |c.succ| && InPdf(c, x, y)
  }

  // Two blocks that dominate a third one are comparable: whichever comes last on a path.
  lemma DominatorsAreComparable(c: Cfg, a: nat, b: nat, q: nat)
    requires c.Valid() && c.Dom(a, q) && c.Dom(b, q) && c.Reachable(q)
    ensures c.Dom(a, b) || c.Dom(b, a)
  {
    var p :| c.PathTo(q, p);
    var i := LastAt(p, a);
    var j := LastAt(p, b);
    if i <= j {
      LaterIsDominated(c, a, b, q, p, i, j);
    } else {
      LaterIsDominated(c, b, a, q, p, j, i);
    }
  }

  lemma {:induction false} LastAt(p: seq<nat>, a: nat) returns (i: nat)
    requires a in p
    ensures i < |p| && p[i] == a && a !in p[i + 1..]
  {
    i := |p| - 1;
    while p[i] != a
      invariant 0 <= i < |p| && a !in p[i + 1..]
      invariant a in p[..i + 1]
      decreases i
    {
      assert p[..i + 1] == p[..i] + [p[i]];
      assert p[i..] == [p[i]] + p[i + 1..];
      i := i - 1;
    }
  }

  lemma LaterIsDominated(c: Cfg, a: nat, b: nat, q: nat, p: seq<nat>, i: nat, j: nat)
    requires c.Valid() && c.PathTo(q, p) && c.Dom(a, q)
    requires i <= j < |p| && p[i] == a && p[j] == b && a !in p[i + 1..]
    ensures c.Dom(a, b)
  {
    forall r | c.PathTo(b, r) ensures a in r {
      var tail := p[j + 1..];
      var s := r + tail;
      forall k, l | 0 <= k < l < |s| && l == k + 1 ensures s[l] in c.succ[s[k]] {
        if k >= |r| - 1 {
          assert s[k] == p[k - |r| + 1 + j] && s[l] == p[l - |r| + 1 + j];
        }
      }
      assert c.PathTo(q, s);
      assert a in s;
      assert forall x :: x in tail ==> x in p[i + 1..];
    }
  }

  // A block strictly above "q" in the tree has a child on the way down to "q".
  lemma {:induction false} ChildTowards(c: Cfg, t: Tree, b: nat, q: nat) returns (z: nat)
    requires IsTree(c, t) && b < |c.succ| && q < |c.succ| && c.StrictlyDom(b, q)
    ensures z in t.idom && t.idom[z] == b && c.Dom(z, q)
    decreases c.Doms(q)
  {
    assert c.PathTo(0, [0]);
    var d := t.idom[q];
    assert c.IsIdom(d, q);
    DomReflexive(c, q);
    if d == b {
      z := q;
    } else {
      IdomShrinksDoms(c, d, q);
      z := ChildTowards(c, t, b, d);
      DomTransitive(c, z, d, q);
    }
  }

  lemma DominatesEachOther(c: Cfg, a: nat, b: nat)
    requires c.AllReachable() && a < |c.succ| && c.Dom(a, b) && c.Dom(b, a)
    ensures a == b
  {
    assert c.Reachable(a);
    var p :| c.PathTo(a, p);
    DomAntisymmetric(c, a, b, p);
  }

  // A predecessor of "b" in the program whose parent in the tree is not "b" is in the frontier.
  lemma LocalPart(c: Cfg, t: Tree, b: nat, y: nat)
    requires IsTree(c, t) && 0 < b < |c.succ| && y in c.succ[b] && y != b
    ensures y in t.idom
    ensures InPdf(c, b, y) <==> t.idom[y] != b
  {
    assert b in c.pred[y];
    assert y != 0;
    var d := t.idom[y];
    assert c.IsIdom(d, y);
    DomReflexive(c, b);
    if c.StrictlyDom(b, y) {
      IdomDominatesPred(c, d, y, b);
      DominatesEachOther(c, d, b);
    }
  }

  // A block in the frontier of a child is in the parent's exactly when its own parent is another.
  lemma UpPart(c: Cfg, t: Tree, b: nat, z: nat, y: nat)
    requires IsTree(c, t) && 0 < b < |c.succ| && z in t.idom && t.idom[z] == b && InPdf(c, z, y)
    ensures y in t.idom
    ensures InPdf(c, b, y) <==> t.idom[y] != b && y != b
  {
    var q :| q in c.pred[y] && c.Dom(z, q);
    assert y != 0;
    var d := t.idom[y];
    assert c.IsIdom(d, y) && c.IsIdom(b, z);
    DomTransitive(c, b, z, q);
    if c.StrictlyDom(b, y) && d != b && y != b {
      IdomDominatesPred(c, d, y, q);
      assert c.Reachable(q);
      DominatorsAreComparable(c, z, d, q);
      if c.Dom(z, d) {
        DomTransitive(c, z, d, y);
      } else {
        assert c.Dom(d, b);
        DominatesEachOther(c, d, b);
      }
    }
  }

  // Every block of the frontier comes from one of the two parts.
  lemma NothingElse(c: Cfg, t: Tree, b: nat, y: nat) returns (z: nat)
    requires IsTree(c, t) && 0 < b < |c.succ| && InPdf(c, b, y) && y !in c.succ[b]
    ensures z in t.children[b] && InPdf(c, z, y)
  {
    var q :| q in c.pred[y] && c.Dom(b, q);
    z := ChildTowards(c, t, b, q);
    assert c.IsIdom(b, z);
    if c.StrictlyDom(z, y) {
      DomTransitive(c, b, z, y);
      DominatesEachOther(c, b, z);
    }
  }

  // How far down the tree a block reaches.
  ghost function Below(c: Cfg, b: nat): set<nat> {
    set x | 0 <= x < |c.succ| && c.Dom(b, x)
  }

  lemma ChildIsLower(c: Cfg, t: Tree, b: nat, z: nat)
    requires IsTree(c, t) && z in t.idom && t.idom[z] == b
    ensures Below(c, z) < Below(c, b)
  {
    assert c.IsIdom(b, z);
    forall x | x in Below(c, z) ensures x in Below(c, b) {
      DomTransitive(c, b, z, x);
    }
    DomReflexive(c, b);
    if c.Dom(z, b) {
      DominatesEachOther(c, b, z);
    }
    assert b in Below(c, b) && b !in Below(c, z);
  }

  /* The iterated frontier. */

  ghost predicate ClosedFrom(c: Cfg, b: nat, s: set<nat>) {
    Pdf(c, b) <= s && forall x :: x in s ==> Pdf(c, x) <= s
  }

  // The least set that holds the frontier of "b" and the frontiers of its members.
  ghost predicate IsIteratedPdf(c: Cfg, b: nat, s: set<nat>) {
    ClosedFrom(c, b, s) && forall r :: ClosedFrom(c, b, r) ==> s <= r
  }

  class Frontiers {
    ghost const c: Cfg
    const blocks: nat
    const jumpsTo: seq<seq<nat>>      // for each block, those that jump to it
    const tree: Tree
    var pdfCache: map<nat, set<nat>>
    var ipdfCache: map<nat, set<nat>>

    constructor (c: Cfg, tree: Tree)
      requires IsTree(c, tree)
      ensures this.c == c && this.tree == tree && Valid()
    {
      this.c, this.blocks, this.jumpsTo, this.tree := c, |c.succ|, c.succ, tree;
      pdfCache, ipdfCache := map[], map[];
    }

    // The caches hold nothing but frontiers.
    ghost predicate Valid() reads this {
      && IsTree(c, tree) && jumpsTo == c.succ && blocks == |c.succ|
      && (forall b :: b in pdfCache ==> pdfCache[b] == Pdf(c, b))
      && (forall b :: b in ipdfCache ==> IsIteratedPdf(c, b, ipdfCache[b]))
    }

    // The frontier of a block, from the cache or from the blocks that jump to it and the frontiers
    // of its children in the tree.
    method PostdominanceFrontier(b: nat) returns (pdf: seq<nat>)
      requires Valid() && 0 < b < blocks
      modifies this`pdfCache
      ensures Valid()
      ensures Members(pdf) == Pdf(c, b)
      decreases Below(c, b)
    {
      pdf := [];
      if b in pdfCache {
        pdf := ToSeq(pdfCache[b]);
        return;
      }
      pdf := AddLocalPart(b);
      var children := tree.children[b];
      for i := 0 to |children|
        invariant Valid()
        invariant forall y :: y in pdf ==> InPdf(c, b, y)
        invariant forall y :: y in jumpsTo[b] && InPdf(c, b, y) ==> y in pdf
        invariant forall k, y :: 0 <= k < i && InPdf(c, children[k], y) && InPdf(c, b, y) ==> y in pdf
      {
        var z := children[i];
        assert z in tree.children[b];
        ChildIsLower(c, tree, b, z);
        var childPdf := PostdominanceFrontier(z);
        assert forall y :: y in childPdf <==> y in Pdf(c, z);
        pdf := AddUpPart(b, z, childPdf, pdf);
      }
      forall y | InPdf(c, b, y) ensures y in pdf {
        if y !in jumpsTo[b] {
          var z := NothingElse(c, tree, b, y);
          var k :| 0 <= k < |children| && children[k] == z;
        }
      }
      pdfCache := pdfCache[b := Members(pdf)];
    }

    method AddLocalPart(b: nat) returns (pdf: seq<nat>)
      requires Valid() && 0 < b < blocks
      ensures forall y :: y in pdf ==> InPdf(c, b, y)
      ensures forall y :: y in jumpsTo[b] && InPdf(c, b, y) ==> y in pdf
    {
      pdf := [];
      for i := 0 to |jumpsTo[b]|
        invariant forall y :: y in pdf ==> InPdf(c, b, y)
        invariant forall y :: y in jumpsTo[b][..i] && InPdf(c, b, y) ==> y in pdf
      {
        var y := jumpsTo[b][i];
        assert y in c.succ[b];
        if y != b {
          LocalPart(c, tree, b, y);
          if tree.idom[y] != b {
            pdf := pdf + [y];
          }
        }
      }
    }

    method AddUpPart(b: nat, z: nat, childPdf: seq<nat>, pdf0: seq<nat>) returns (pdf: seq<nat>)
      requires Valid() && 0 < b < blocks && z in tree.idom && tree.idom[z] == b
      requires forall y :: y in childPdf <==> y in Pdf(c, z)
      requires forall y :: y in pdf0 ==> InPdf(c, b, y)
      ensures forall y :: y in pdf ==> InPdf(c, b, y)
      ensures forall y :: y in pdf0 || (InPdf(c, z, y) && InPdf(c, b, y)) ==> y in pdf
    {
      pdf := pdf0;
      for i := 0 to |childPdf|
        invariant forall y :: y in pdf ==> InPdf(c, b, y)
        invariant forall y :: y in pdf0 || (y in childPdf[..i] && InPdf(c, b, y)) ==> y in pdf
      {
        var y := childPdf[i];
        assert y in Pdf(c, z);
        UpPart(c, tree, b, z, y);
        if tree.idom[y] != b && y != b {
          pdf := pdf + [y];
        }
      }
      assert childPdf[..|childPdf|] == childPdf;
      assert forall y :: InPdf(c, z, y) ==> y in Pdf(c, z);
    }

    // The iterated frontier, from the cache or by rounds over the blocks found in the last round.
    method IteratedFrontier(b: nat) returns (ipdf: seq<nat>)
      requires Valid() && 0 < b < blocks
      modifies this
      ensures Valid()
      ensures IsIteratedPdf(c, b, Members(ipdf))
    {
      if b in ipdfCache {
        ipdf := ToSeq(ipdfCache[b]);
        return;
      }
      ipdf := PostdominanceFrontier(b);
      if ipdf == [] {
        assert Members(ipdf) == {};
        return;
      }
      var s := Members(ipdf);
      var toCompute := s;
      var changed := true;
      while changed
        invariant Valid() && Pdf(c, b) <= s && toCompute <= s
        invariant forall x :: x in s ==> 0 < x < blocks
        invariant forall x :: x in s && x !in toCompute ==> Pdf(c, x) <= s
        invariant forall r :: ClosedFrom(c, b, r) ==> s <= r
        invariant !changed ==> toCompute == {}
        decreases Below(c, 0) - s, changed
      {
        ghost var before := s;
        s, toCompute, changed := Round(b, s, toCompute);
        if changed {
          var x :| x in toCompute;
          assert c.Dom(0, x);
          assert x in Below(c, 0) - before;
        }
      }
      assert IsIteratedPdf(c, b, s);
      var all := ToSeq(s);
      ipdf := ipdf + all;
      assert Members(ipdf) == s;
      ipdfCache := ipdfCache[b := s];
    }

    // One round: the frontiers of the blocks to compute are added, and what is new is next.
    method Round(ghost b: nat, s0: set<nat>, toCompute: set<nat>) returns (s: set<nat>, next: set<nat>, changed: bool)
      requires Valid() && toCompute <= s0
      requires forall x :: x in s0 ==> 0 < x < blocks
      requires forall x :: x in s0 && x !in toCompute ==> Pdf(c, x) <= s0
      modifies this`pdfCache
      ensures Valid() && s0 <= s && next == s - s0 && (changed <==> next != {})
      ensures forall x :: x in s ==> 0 < x < blocks
      ensures forall x :: x in s0 ==> Pdf(c, x) <= s
      ensures forall r :: ClosedFrom(c, b, r) && s0 <= r ==> s <= r
    {
      s, next, changed := s0, {}, false;
      var todo := toCompute;
      while todo != {}
        invariant Valid() && todo <= toCompute
        invariant s0 <= s && next == s - s0 && (changed <==> next != {})
        invariant forall x :: x in s ==> 0 < x < blocks
        invariant forall x :: x in s0 && x !in todo ==> Pdf(c, x) <= s
        invariant forall r :: ClosedFrom(c, b, r) && s0 <= r ==> s <= r
      {
        var x :| x in todo;
        todo := todo - {x};
        var frontier := PostdominanceFrontier(x);
        s, next, changed := AddNew(frontier, s0, s, next, changed);
      }
    }

    method AddNew(frontier: seq<nat>, ghost s0: set<nat>, s: set<nat>, next: set<nat>, changed: bool)
      returns (s': set<nat>, next': set<nat>, changed': bool)
      requires s0 <= s && next == s - s0 && (changed <==> next != {})
      ensures s' == s + Members(frontier) && next' == s' - s0 && (changed' <==> next' != {})
    {
      s', next', changed' := s, next, changed;
      for i := 0 to |frontier|
        invariant s' == s + Members(frontier[..i]) && next' == s' - s0 && (changed' <==> next' != {})
      {
        assert frontier[..i + 1] == frontier[..i] + [frontier[i]];
        if frontier[i] !in s' {
          s', next', changed' := s' + {frontier[i]}, next' + {frontier[i]}, true;
        }
      }
      assert frontier[..|frontier|] == frontier;
    }
  }
}
