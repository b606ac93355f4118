// Which regions a function may modify or reference, through calls as well, less those that are killed:
// regions local to a function further down.
module ModRef {

  type Regions = set<nat>
  type PerFunction = map<nat, Regions>

  // Call graph nodes are numbered; those in "defined" stand for a function. The components come
  // callees first, and "sccOf" gives the component of a node.
  datatype CallGraph = CallGraph(callees: map<nat, seq<nat>>, defined: set<nat>, sccs: seq<seq<nat>>, sccOf: map<nat, nat>) {

    function Callees(f: nat): seq<nat> {
      if f in callees then callees[f] else []
    }

    // A call that counts: between two different functions.
    predicate Calls(f: nat, c: nat) {
      f in defined && c in defined && c != f && c in Callees(f)
    }

    // A call out of the caller's component.
    predicate Leaves(f: nat, c: nat) {
      Calls(f, c) && f in sccOf && c in sccOf && sccOf[c] != sccOf[f]
    }

    ghost predicate Valid() {
      && (forall f :: f in defined ==> f in sccOf)
      && (forall f :: f in sccOf ==> sccOf[f] < |sccs|)
      && (forall k: nat, f :: k < |sccs| && f in sccs[k] ==> f in sccOf && sccOf[f] == k)
      && (forall f :: f in sccOf ==> f in sccs[sccOf[f]])
      && (forall f, c :: Calls(f, c) ==> c in sccOf && f in sccOf && sccOf[c] <= sccOf[f])
    }
  }

  function At(m: PerFunction, f: nat): Regions {
    if f in m then m[f] else {}
  }

  // The kill set: the locals and the kill sets of the callees in other components.
  ghost function Kill(g: CallGraph, local: PerFunction, f: nat): Regions
    requires g.Valid()
    decreases if f in g.sccOf then g.sccOf[f] + 1 else 0
  {
    set c, r | c in g.Callees(f) && g.Leaves(f, c) && r in At(local, c) + Kill(g, local, c) :: r
  }

  /* What a final set means. */

  ghost predicate IsCallPath(g: CallGraph, p: seq<nat>) {
    p != [] && forall i, j :: 0 <= i < j < |p| && j == i + 1 ==> IsCall(g, p[i], p[j])
  }

  // Two different functions, one of which the call graph has as a callee of the other.
  ghost predicate IsCall(g: CallGraph, f: nat, c: nat) {
    f != c && f in g.defined && c in g.defined && f in g.callees && c in g.callees[f]
  }

  // Along some path of calls from "f", no function of which kills "r", a function is reached that
  // touches "r" itself.
  ghost predicate Touches(g: CallGraph, local: PerFunction, own: PerFunction, f: nat, r: nat)
    requires g.Valid()
  {
    exists p :: IsTouchPath(g, local, own, r, p) && p[0] == f
  }

  ghost predicate IsTouchPath(g: CallGraph, local: PerFunction, own: PerFunction, r: nat, p: seq<nat>)
    requires g.Valid()
  {
    && IsCallPath(g, p)
    && (forall i :: 0 <= i < |p| ==> r !in Kill(g, local, p[i]))
    && r in At(own, p[|p| - 1])
  }

  lemma TouchesItself(g: CallGraph, local: PerFunction, own: PerFunction, f: nat, r: nat)
    requires g.Valid() && r in At(own, f) && r !in Kill(g, local, f)
    ensures Touches(g, local, own, f, r)
  {
    assert IsTouchPath(g, local, own, r, [f]);
  }

  lemma TouchesThrough(g: CallGraph, local: PerFunction, own: PerFunction, f: nat, c: nat, r: nat)
    requires g.Valid() && g.Calls(f, c) && Touches(g, local, own, c, r) && r !in Kill(g, local, f)
    ensures Touches(g, local, own, f, r)
  {
    var p :| IsTouchPath(g, local, own, r, p) && p[0] == c;
    var q := [f] + p;
    assert IsTouchPath(g, local, own, r, q);
  }

  // The kill set by paths: some function local to which the region is, reached by calls that each
  // leave the component of the caller.
  ghost predicate IsKillPath(g: CallGraph, local: PerFunction, r: nat, p: seq<nat>) {
    && |p| > 1 && r in At(local, p[|p| - 1])
    && (forall i, j :: 0 <= i < j < |p| && j == i + 1 ==>
          IsCall(g, p[i], p[j]) && p[i] in g.sccOf && p[j] in g.sccOf && g.sccOf[p[i]] != g.sccOf[p[j]])
  }

  ghost predicate Kills(g: CallGraph, local: PerFunction, f: nat, r: nat) {
    exists p :: IsKillPath(g, local, r, p) && p[0] == f
  }

  lemma KillsThrough(g: CallGraph, local: PerFunction, f: nat, c: nat, r: nat)
    requires g.Leaves(f, c) && (r in At(local, c) || Kills(g, local, c, r))
    ensures Kills(g, local, f, r)
  {
    if r in At(local, c) {
      assert IsKillPath(g, local, r, [f, c]);
    } else {
      var p :| IsKillPath(g, local, r, p) && p[0] == c;
      var q := [f] + p;
      assert IsKillPath(g, local, r, q);
    }
  }

  lemma FirstKillCall(g: CallGraph, local: PerFunction, f: nat, r: nat) returns (c: nat)
    requires Kills(g, local, f, r)
    ensures g.Leaves(f, c) && (r in At(local, c) || Kills(g, local, c, r))
  {
    var p :| IsKillPath(g, local, r, p) && p[0] == f;
    c := p[1];
    if |p| > 2 {
      var q := p[1..];
      assert IsKillPath(g, local, r, q);
    }
  }

  lemma {:induction false} KillIffPath(g: CallGraph, local: PerFunction, f: nat, r: nat)
    requires g.Valid()
    ensures r in Kill(g, local, f) <==> Kills(g, local, f, r)
    decreases if f in g.sccOf then g.sccOf[f] + 1 else 0
  {
    if r in Kill(g, local, f) {
      var c :| c in g.Callees(f) && g.Leaves(f, c) && r in At(local, c) + Kill(g, local, c);
      KillIffPath(g, local, c, r);
      KillsThrough(g, local, f, c, r);
    }
    if Kills(g, local, f, r) {
      var c := FirstKillCall(g, local, f, r);
      KillIffPath(g, local, c, r);
      assert r in At(local, c) + Kill(g, local, c);
    }
  }

  /* What the analysis keeps. */

  // Everything in the set of a function of "fs" has such a path.
  ghost predicate Sound(g: CallGraph, local: PerFunction, own: PerFunction, m: PerFunction, fs: set<nat>)
    requires g.Valid()
  {
    forall f, r :: f in fs && r in At(m, f) ==> Touches(g, local, own, f, r)
  }

  // What a function touches itself is in its set.
  ghost predicate HoldsOwn(g: CallGraph, local: PerFunction, own: PerFunction, m: PerFunction, fs: set<nat>)
    requires g.Valid()
  {
    forall f :: f in fs ==> At(own, f) - Kill(g, local, f) <= At(m, f)
  }

  // So is what its callees touch.
  ghost predicate HoldsCallees(g: CallGraph, local: PerFunction, m: PerFunction, f: nat)
    requires g.Valid()
  {
    forall c :: g.Calls(f, c) ==> At(m, c) - Kill(g, local, f) <= At(m, f)
  }

  // The functions of the first "k" components.
  ghost function Before(g: CallGraph, k: nat): set<nat> {
    set f | f in g.defined && f in g.sccOf && g.sccOf[f] < k
  }

  // A set closed in this way holds all that paths lead to.
  lemma {:induction false} PathIsHeld(g: CallGraph, local: PerFunction, own: PerFunction, m: PerFunction, k: nat, r: nat, p: seq<nat>)
    requires g.Valid() && IsTouchPath(g, local, own, r, p) && p[0] in Before(g, k)
    requires HoldsOwn(g, local, own, m, Before(g, k)) && forall f :: f in Before(g, k) ==> HoldsCallees(g, local, m, f)
    ensures r in At(m, p[0])
    decreases |p|
  {
    if |p| > 1 {
      var q := p[1..];
      assert g.Calls(p[0], p[1]);
      assert IsTouchPath(g, local, own, r, q);
      PathIsHeld(g, local, own, m, k, r, q);
    }
  }

  // Processed functions have their final set, the others still their own.
  ghost predicate Done(g: CallGraph, local: PerFunction, own: PerFunction, m: PerFunction, k: nat)
    requires g.Valid()
  {
    && Sound(g, local, own, m, Before(g, k)) && HoldsOwn(g, local, own, m, Before(g, k))
    && (forall f :: f in Before(g, k) ==> HoldsCallees(g, local, m, f))
    && (forall f :: f in g.defined && f !in Before(g, k) ==> At(m, f) == At(own, f))
  }

  lemma DoneMeans(g: CallGraph, local: PerFunction, own: PerFunction, m: PerFunction, k: nat)
    requires g.Valid() && Done(g, local, own, m, k)
    ensures forall f, r :: f in Before(g, k) ==> (r in At(m, f) <==> Touches(g, local, own, f, r))
  {
    forall f, r | f in Before(g, k) && Touches(g, local, own, f, r) ensures r in At(m, f) {
      var p :| IsTouchPath(g, local, own, r, p) && p[0] == f;
      PathIsHeld(g, local, own, m, k, r, p);
    }
  }
}
