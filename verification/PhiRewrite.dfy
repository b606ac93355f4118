// Eliminating one phi as a rewrite of the dependence graph: the phi and its operands become one
// node. Nothing new flows, and only what came in through a predicate of the phi is lost.
module PhiRewrite {
  import opened TaintGraph

  // The graph without the edges from predicates to the phis of "phis".
  ghost function Cut(g: iset<Arrow>, phis: set<nat>): iset<Arrow> {
    iset e: Arrow | e in g && !(e.0.Value? && e.1.Var? && e.1.id in phis)
  }

  // The operands have the same neighbours, the phi among them, and the phi has no other operand.
  ghost predicate Eliminable(g: iset<Arrow>, phi: nat, ops: set<nat>) {
    && phi !in ops
    && (forall o :: o in ops ==> (Var(o), Var(phi)) in g)
    && (forall m: nat :: (Var(m), Var(phi)) in g ==> m in ops)
    && (forall o, q, n: Node :: o in ops && q in ops && (Var(o), n) in g ==> (Var(q), n) in g)
    && (forall o, q, n: Node :: o in ops && q in ops && (n, Var(o)) in g ==> (n, Var(q)) in g)
  }

  predicate Gone(phi: nat, ops: set<nat>, kept: nat, n: Node) {
    n.Var? && (n.id == phi || (n.id in ops && n.id != kept))
  }

  // Where a node ends up.
  function Merged(phi: nat, ops: set<nat>, kept: nat, n: Node): Node {
    if Gone(phi, ops, kept, n) then Var(kept) else n
  }

  // The graph after the rewrite: the kept operand inherits what the phi flowed to.
  ghost function Rewired(g: iset<Arrow>, phi: nat, ops: set<nat>, kept: nat): iset<Arrow> {
    iset e: Arrow |
      && !Gone(phi, ops, kept, e.0) && !Gone(phi, ops, kept, e.1)
      && (e in g || (e.0 == Var(kept) && (Var(phi), e.1) in g))
  }

  // An edge is kept between the merged ends, or lies inside the merged node.
  lemma RewiredEdge(g: iset<Arrow>, phi: nat, ops: set<nat>, kept: nat, a: Node, b: Node)
    requires Eliminable(g, phi, ops) && kept in ops
    requires (a, b) in Cut(g, {phi})
    ensures b == Var(phi) ==> a.Var? && a.id in ops
    ensures b != Var(phi) ==>
      (Merged(phi, ops, kept, a), Merged(phi, ops, kept, b)) in Rewired(g, phi, ops, kept)
  {
    if b != Var(phi) {
      var a', b' := Merged(phi, ops, kept, a), Merged(phi, ops, kept, b);
      assert (a, b') in g;
      if a == Var(phi) {
        assert (a', b') in Rewired(g, phi, ops, kept);
      } else {
        assert (a', b') in g;
      }
    }
  }

  // Leaving out predicate edges of other phis goes together with the rewrite.
  lemma CutFirst(g: iset<Arrow>, phi: nat, ops: set<nat>, kept: nat, others: set<nat>)
    requires Eliminable(g, phi, ops) && kept in ops && others !! ops
    ensures Eliminable(Cut(g, others), phi, ops)
    ensures Rewired(Cut(g, others), phi, ops, kept) == Cut(Rewired(g, phi, ops, kept), others)
    ensures Cut(Cut(g, others), {phi}) == Cut(g, others + {phi})
  {
  }

  /* When taint is kept. */

  // A source that passes its taint on.
  ghost predicate Live(sources: iset<Node>, resets: iset<Node>, n: Node) {
    n in sources && n !in resets
  }

  // Where the kept operand is a reset node all operands are, and the phi passes on nothing of its
  // own; otherwise it is a source if any operand or the phi is one that passes its taint on.
  ghost predicate KeptIsFit(phi: nat, ops: set<nat>, kept: nat, sources: iset<Node>, resets: iset<Node>) {
    if Var(kept) in resets then
      (forall o :: o in ops ==> Var(o) in resets) && !Live(sources, resets, Var(phi))
    else
      forall m: nat :: (m in ops || m == phi) && Live(sources, resets, Var(m)) ==> Var(kept) in sources
  }

  // No node that is left loses taint but what came through a predicate of the phi.
  ghost predicate KeepsTaint(g: iset<Arrow>, phi: nat, ops: set<nat>, kept: nat, sources: iset<Node>, resets: iset<Node>) {
    forall n: Node :: !Gone(phi, ops, kept, n) && Tainted(Cut(g, {phi}), sources, resets, n) ==>
      Tainted(Rewired(g, phi, ops, kept), sources, resets, n)
  }

  // No node that is left becomes tainted.
  ghost predicate AddsNoTaint(g: iset<Arrow>, phi: nat, ops: set<nat>, kept: nat, sources: iset<Node>, resets: iset<Node>) {
    forall n: Node :: !Gone(phi, ops, kept, n) && Tainted(Rewired(g, phi, ops, kept), sources, resets, n) ==>
      Tainted(g, sources, resets, n)
  }

  // Operands that are all resets pass nothing on.
  lemma ResetOperandsKeepTaint(g: iset<Arrow>, phi: nat, ops: set<nat>, kept: nat, sources: iset<Node>, resets: iset<Node>)
    requires Eliminable(g, phi, ops) && kept in ops && !Live(sources, resets, Var(phi))
    requires forall o :: o in ops ==> Var(o) in resets
    ensures KeepsTaint(g, phi, ops, kept, sources, resets)
  {
    forall n: Node | !Gone(phi, ops, kept, n) && Tainted(Cut(g, {phi}), sources, resets, n)
      ensures Tainted(Rewired(g, phi, ops, kept), sources, resets, n)
    {
      forall x | Floods(Rewired(g, phi, ops, kept), sources, resets, x) ensures n in x {
        var y := iset m: Node | if m == Var(phi) then m in resets else Gone(phi, ops, kept, m) || m in x;
        forall a: Node, b: Node | (a, b) in Cut(g, {phi}) && a in y && a !in resets ensures b in y {
          assert !(a.Var? && a.id in ops);
          assert b != Var(phi);
          assert !Gone(phi, ops, kept, b) ==> (a, b) in Rewired(g, phi, ops, kept);
        }
        assert Floods(Cut(g, {phi}), sources, resets, y);
        assert n in y;
      }
    }
  }

  // Where the kept operand passes taint on, it stands in for all that is merged into it; operands
  // that are resets passed nothing on anyway.
  lemma PassingOperandKeepsTaint(g: iset<Arrow>, phi: nat, ops: set<nat>, kept: nat, sources: iset<Node>, resets: iset<Node>)
    requires Eliminable(g, phi, ops) && kept in ops && Var(kept) !in resets
    requires KeptIsFit(phi, ops, kept, sources, resets)
    ensures KeepsTaint(g, phi, ops, kept, sources, resets)
  {
    forall n: Node | !Gone(phi, ops, kept, n) && Tainted(Cut(g, {phi}), sources, resets, n)
      ensures Tainted(Rewired(g, phi, ops, kept), sources, resets, n)
    {
      forall x | Floods(Rewired(g, phi, ops, kept), sources, resets, x) ensures n in x {
        var y := iset m: Node | (Gone(phi, ops, kept, m) && m in resets) || Merged(phi, ops, kept, m) in x;
        forall a: Node, b: Node | (a, b) in Cut(g, {phi}) && a in y && a !in resets ensures b in y {
          RewiredEdge(g, phi, ops, kept, a, b);
        }
        assert Floods(Cut(g, {phi}), sources, resets, y) by {
          forall s | s in sources ensures s in y {
            assert Gone(phi, ops, kept, s) && s !in resets ==> Live(sources, resets, Var(s.id));
          }
        }
        assert n in y;
      }
    }
  }

  // Nothing new is tainted unless a reset phi made way for an operand that passes taint on.
  lemma RewiringAddsNoTaint(g: iset<Arrow>, phi: nat, ops: set<nat>, kept: nat, sources: iset<Node>, resets: iset<Node>)
    requires Eliminable(g, phi, ops) && kept in ops && (Var(phi) in resets ==> Var(kept) in resets)
    ensures AddsNoTaint(g, phi, ops, kept, sources, resets)
  {
    forall n: Node | Tainted(Rewired(g, phi, ops, kept), sources, resets, n) ensures Tainted(g, sources, resets, n) {
      forall x | Floods(g, sources, resets, x) ensures n in x {
        assert (Var(kept), Var(phi)) in g;
        assert Floods(Rewired(g, phi, ops, kept), sources, resets, x);
      }
    }
  }

  /* Where it is lost, or added. */

  // The value "u" flows into the operands if it feeds them, the operands into the phi and, if they
  // have another child, into "v"; the phi flows into "v".
  ghost function Diamond(phi: nat, ops: set<nat>, fed: bool, u: nat, direct: bool, v: nat): iset<Arrow> {
    iset e: Arrow |
      || (fed && e.0 == Value(u) && e.1.Var? && e.1.id in ops)
      || (e.0.Var? && e.0.id in ops && (e.1 == Var(phi) || (direct && e.1 == Value(v))))
      || e == (Var(phi), Value(v))
  }

  // An operand that passes on its own taint is given up for one that is no source.
  lemma LostSource(phi: nat, ops: set<nat>, kept: nat, other: nat, u: nat, v: nat, sources: iset<Node>, resets: iset<Node>)
    requires kept in ops && other in ops && phi !in ops && Value(v) !in sources
    requires Live(sources, resets, Var(other)) && Var(kept) !in sources
    ensures Eliminable(Diamond(phi, ops, false, u, true, v), phi, ops)
    ensures !KeepsTaint(Diamond(phi, ops, false, u, true, v), phi, ops, kept, sources, resets)
  {
    var g := Diamond(phi, ops, false, u, true, v);
    forall x | Floods(Cut(g, {phi}), sources, resets, x) ensures Value(v) in x {
      assert (Var(other), Value(v)) in Cut(g, {phi});
    }
    assert Floods(Rewired(g, phi, ops, kept), sources, resets, sources);
    assert !Tainted(Rewired(g, phi, ops, kept), sources, resets, Value(v));
    assert !Gone(phi, ops, kept, Value(v));
  }

  // An operand that passes taint on is given up for one that is a reset node.
  lemma LostReset(phi: nat, ops: set<nat>, kept: nat, other: nat, u: nat, v: nat, sources: iset<Node>, resets: iset<Node>)
    requires kept in ops && other in ops && phi !in ops && Value(v) !in sources
    requires Live(sources, resets, Value(u)) && Var(kept) in resets && Var(other) !in resets
    ensures Eliminable(Diamond(phi, ops, true, u, true, v), phi, ops)
    ensures !KeepsTaint(Diamond(phi, ops, true, u, true, v), phi, ops, kept, sources, resets)
  {
    var g := Diamond(phi, ops, true, u, true, v);
    forall x | Floods(Cut(g, {phi}), sources, resets, x) ensures Value(v) in x {
      assert (Value(u), Var(other)) in Cut(g, {phi}) && (Var(other), Value(v)) in Cut(g, {phi});
    }
    var rewired := Rewired(g, phi, ops, kept);
    forall a: Node, b: Node | (a, b) in rewired ensures a == Var(kept) || b == Var(kept) {
      DiamondEdge(phi, ops, true, u, true, v, kept, a, b);
    }
    hide Rewired, Diamond, Cut;
    assert Floods(rewired, sources, resets, sources + iset{Var(kept)});
    assert !Tainted(rewired, sources, resets, Value(v));
    assert !Gone(phi, ops, kept, Value(v));
  }

  lemma DiamondEdge(phi: nat, ops: set<nat>, before: bool, u: nat, after: bool, v: nat, kept: nat, a: Node, b: Node)
    requires (a, b) in Rewired(Diamond(phi, ops, before, u, after, v), phi, ops, kept)
    ensures a == Var(kept) || b == Var(kept)
  {
  }

  // The phi passes on taint of its own, and the kept operand does not.
  lemma LostPhi(phi: nat, ops: set<nat>, kept: nat, u: nat, v: nat, sources: iset<Node>, resets: iset<Node>)
    requires kept in ops && phi !in ops && Value(v) !in sources
    requires Live(sources, resets, Var(phi)) && !Live(sources, resets, Var(kept))
    ensures Eliminable(Diamond(phi, ops, false, u, false, v), phi, ops)
    ensures !KeepsTaint(Diamond(phi, ops, false, u, false, v), phi, ops, kept, sources, resets)
  {
    var g := Diamond(phi, ops, false, u, false, v);
    forall x | Floods(Cut(g, {phi}), sources, resets, x) ensures Value(v) in x {
      assert (Var(phi), Value(v)) in Cut(g, {phi});
    }
    assert Floods(Rewired(g, phi, ops, kept), sources, resets, sources);
    assert !Tainted(Rewired(g, phi, ops, kept), sources, resets, Value(v));
    assert !Gone(phi, ops, kept, Value(v));
  }

  // A reset phi makes way for an operand that passes taint on.
  lemma AddedTaint(phi: nat, ops: set<nat>, kept: nat, u: nat, v: nat, sources: iset<Node>, resets: iset<Node>)
    requires kept in ops && phi !in ops && Value(v) !in sources && Live(sources, resets, Value(u))
    requires Var(phi) in resets && Var(kept) !in resets
    ensures Eliminable(Diamond(phi, ops, true, u, false, v), phi, ops)
    ensures !AddsNoTaint(Diamond(phi, ops, true, u, false, v), phi, ops, kept, sources, resets)
  {
    var g := Diamond(phi, ops, true, u, false, v);
    var rewired := Rewired(g, phi, ops, kept);
    forall x | Floods(rewired, sources, resets, x) ensures Value(v) in x {
      assert (Value(u), Var(kept)) in rewired && (Var(kept), Value(v)) in rewired;
    }
    var y := sources + iset m: Node | m == Var(phi) || (m.Var? && m.id in ops);
    assert Floods(g, sources, resets, y);
    assert !Tainted(g, sources, resets, Value(v));
    assert !Gone(phi, ops, kept, Value(v));
  }

  // Exactly when an elimination keeps taint, whatever the graph and whatever is a source or a reset
  // node (as long as some value "u" passes on taint of its own and some value "v" is no source).
  lemma KeepsTaintIff(phi: nat, ops: set<nat>, kept: nat, u: nat, v: nat, sources: iset<Node>, resets: iset<Node>)
    requires kept in ops && phi !in ops && Live(sources, resets, Value(u)) && Value(v) !in sources
    ensures (forall g :: Eliminable(g, phi, ops) ==> KeepsTaint(g, phi, ops, kept, sources, resets)) <==>
            KeptIsFit(phi, ops, kept, sources, resets)
  {
    hide KeepsTaint, Eliminable, Diamond;
    if KeptIsFit(phi, ops, kept, sources, resets) {
      forall g | Eliminable(g, phi, ops) ensures KeepsTaint(g, phi, ops, kept, sources, resets) {
        FitKeepsTaint(g, phi, ops, kept, sources, resets);
      }
    } else if Live(sources, resets, Var(phi)) && !Live(sources, resets, Var(kept)) {
      LostPhi(phi, ops, kept, u, v, sources, resets);
    } else if Var(kept) in resets {
      var other :| other in ops && Var(other) !in resets;
      LostReset(phi, ops, kept, other, u, v, sources, resets);
    } else {
      var other: nat :| (other in ops || other == phi) && Live(sources, resets, Var(other)) && Var(kept) !in sources;
      LostSource(phi, ops, kept, other, u, v, sources, resets);
    }
  }

  lemma FitKeepsTaint(g: iset<Arrow>, phi: nat, ops: set<nat>, kept: nat, sources: iset<Node>, resets: iset<Node>)
    requires Eliminable(g, phi, ops) && kept in ops && KeptIsFit(phi, ops, kept, sources, resets)
    ensures KeepsTaint(g, phi, ops, kept, sources, resets)
  {
    hide KeepsTaint, Eliminable;
    if Var(kept) in resets {
      ResetOperandsKeepTaint(g, phi, ops, kept, sources, resets);
    } else {
      PassingOperandKeepsTaint(g, phi, ops, kept, sources, resets);
    }
  }

  // Exactly when it adds none.
  lemma AddsNoTaintIff(phi: nat, ops: set<nat>, kept: nat, u: nat, v: nat, sources: iset<Node>, resets: iset<Node>)
    requires kept in ops && phi !in ops && Live(sources, resets, Value(u)) && Value(v) !in sources
    ensures (forall g :: Eliminable(g, phi, ops) ==> AddsNoTaint(g, phi, ops, kept, sources, resets)) <==>
            (Var(phi) in resets ==> Var(kept) in resets)
  {
    hide AddsNoTaint, Eliminable, Diamond;
    if Var(phi) in resets ==> Var(kept) in resets {
      forall g | Eliminable(g, phi, ops) ensures AddsNoTaint(g, phi, ops, kept, sources, resets) {
        RewiringAddsNoTaint(g, phi, ops, kept, sources, resets);
      }
    } else {
      AddedTaint(phi, ops, kept, u, v, sources, resets);
    }
  }
}
