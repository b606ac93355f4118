// The phi elimination pass: phis whose operands are equivalent are merged with them, again and
// again, until a pass over the function finds none.
module PhiElimination {
  import opened Sequences
  import opened TaintGraph
  import opened PhiRewrite

  /* Equivalence of two variables, as the pass tests it. */

  predicate SameEntry(m: map<nat, set<nat>>, a: nat, b: nat) {
    (a in m <==> b in m) && (a in m && b in m ==> m[a] == m[b])
  }

  ghost predicate SameNeighbours(e: DepEdges, a: nat, b: nat) {
    && SameEntry(e.varToVar.children, a, b)
    && SameEntry(e.varToValue.children, a, b)
    && SameEntry(e.varToVar.parents, a, b)
    && SameEntry(e.valueToVar.parents, a, b)
  }

  // Neither is a phi, and they have the same edges.
  ghost predicate Equivalent(e: DepEdges, phis: set<nat>, a: nat, b: nat) {
    a !in phis && b !in phis && SameNeighbours(e, a, b)
  }

  predicate SameSize(m: map<nat, set<nat>>, a: nat, b: nat) {
    (a in m <==> b in m) && (a in m && b in m ==> |m[a]| == |m[b]|)
  }

  // Whether every member of "a"'s set is in "b"'s.
  method EntryIncluded(m: map<nat, set<nat>>, a: nat, b: nat) returns (included: bool)
    requires SameSize(m, a, b)
    ensures included <==> SameEntry(m, a, b)
  {
    if a !in m {
      return true;
    }
    var todo := m[a];
    while todo != {}
      invariant todo <= m[a]
      invariant m[a] - todo <= m[b]
    {
      var v :| v in todo;
      if v !in m[b] {
        return false;
      }
      todo := todo - {v};
    }
    assert m[a] <= m[b];
    SubsetSize(m[a], m[b]);
    return true;
  }

  method AreEquivalent(e: DepEdges, phis: set<nat>, a: nat, b: nat) returns (same: bool)
    ensures same <==> Equivalent(e, phis, a, b)
  {
    if a in phis || b in phis {
      return false;
    }
    if !SameSize(e.varToVar.children, a, b) || !SameSize(e.varToValue.children, a, b)
       || !SameSize(e.varToVar.parents, a, b) || !SameSize(e.valueToVar.parents, a, b) {
      return false;
    }
    same := EntryIncluded(e.varToVar.children, a, b);
    if same {
      same := EntryIncluded(e.varToValue.children, a, b);
    }
    if same {
      same := EntryIncluded(e.varToVar.parents, a, b);
    }
    if same {
      same := EntryIncluded(e.valueToVar.parents, a, b);
    }
  }

  // What the test finds out about the graph: the same edges out and in, and the same tables that have
  // an entry.
  lemma EquivalentIff(e: DepEdges, phis: set<nat>, a: nat, b: nat)
    requires e.Mirrored()
    ensures Equivalent(e, phis, a, b) <==>
      && a !in phis && b !in phis
      && (forall n: Node :: (e.Has(Var(a), n) <==> e.Has(Var(b), n)) && (e.Has(n, Var(a)) <==> e.Has(n, Var(b))))
      && (a in e.varToVar.children <==> b in e.varToVar.children) && (a in e.varToValue.children <==> b in e.varToValue.children)
      && (a in e.varToVar.parents <==> b in e.varToVar.parents) && (a in e.valueToVar.parents <==> b in e.valueToVar.parents)
  {
    if Equivalent(e, phis, a, b) {
      forall n: Node ensures (e.Has(Var(a), n) <==> e.Has(Var(b), n)) && (e.Has(n, Var(a)) <==> e.Has(n, Var(b))) {
        EquivalentArrows(e, phis, a, b, n);
      }
    } else if forall n: Node :: (e.Has(Var(a), n) <==> e.Has(Var(b), n)) && (e.Has(n, Var(a)) <==> e.Has(n, Var(b))) {
      SameSets(e, a, b);
    }
  }

  lemma SameSets(e: DepEdges, a: nat, b: nat)
    requires e.Mirrored()
    requires forall n: Node :: (e.Has(Var(a), n) <==> e.Has(Var(b), n)) && (e.Has(n, Var(a)) <==> e.Has(n, Var(b)))
    ensures e.varToVar.Children(a) == e.varToVar.Children(b) && e.varToValue.Children(a) == e.varToValue.Children(b)
    ensures e.varToVar.Parents(a) == e.varToVar.Parents(b) && e.valueToVar.Parents(a) == e.valueToVar.Parents(b)
  {
    forall v: nat
      ensures v in e.varToVar.Children(a) <==> v in e.varToVar.Children(b)
      ensures v in e.varToVar.Parents(a) <==> v in e.varToVar.Parents(b)
    {
      assert (e.Has(Var(a), Var(v)) <==> e.Has(Var(b), Var(v))) && (e.Has(Var(v), Var(a)) <==> e.Has(Var(v), Var(b)));
    }
    forall v: nat
      ensures v in e.varToValue.Children(a) <==> v in e.varToValue.Children(b)
      ensures v in e.valueToVar.Parents(a) <==> v in e.valueToVar.Parents(b)
    {
      assert (e.Has(Var(a), Value(v)) <==> e.Has(Var(b), Value(v))) && (e.Has(Value(v), Var(a)) <==> e.Has(Value(v), Var(b)));
    }
  }

  // Every operand is equivalent to the next one.
  ghost predicate AdjacentEquivalent(e: DepEdges, phis: set<nat>, ops: seq<nat>) {
    forall i, j :: 0 <= i < j < |ops| && j == i + 1 ==> Equivalent(e, phis, ops[i], ops[j])
  }

  method CanEliminate(e: DepEdges, phis: set<nat>, ops: seq<nat>) returns (can: bool)
    ensures can <==> AdjacentEquivalent(e, phis, ops)
  {
    can := true;
    var i := 0;
    while i + 1 < |ops|
      invariant 0 <= i && (ops != [] ==> i < |ops|)
      invariant AdjacentEquivalent(e, phis, ops[..if ops == [] then 0 else i + 1])
    {
      var same := AreEquivalent(e, phis, ops[i], ops[i + 1]);
      if !same {
        return false;
      }
      i := i + 1;
    }
    assert ops[..if ops == [] then 0 else i + 1] == ops;
  }

  // Adjacent equivalence spreads over all operands.
  lemma {:induction false} AllEquivalent(e: DepEdges, phis: set<nat>, ops: seq<nat>, i: nat, j: nat)
    requires AdjacentEquivalent(e, phis, ops) && i <= j < |ops| && |ops| >= 2
    ensures Equivalent(e, phis, ops[i], ops[j])
    decreases j - i
  {
    if i < j {
      AllEquivalent(e, phis, ops, i, j - 1);
    } else if i > 0 {
      assert Equivalent(e, phis, ops[i - 1], ops[i]);
    } else {
      assert Equivalent(e, phis, ops[0], ops[1]);
    }
  }

  lemma EquivalentArrows(e: DepEdges, phis: set<nat>, a: nat, b: nat, n: Node)
    requires e.Mirrored() && Equivalent(e, phis, a, b)
    ensures (Var(a), n) in e.Arrows() <==> (Var(b), n) in e.Arrows()
    ensures (n, Var(a)) in e.Arrows() <==> (n, Var(b)) in e.Arrows()
  {
    match n {
      case Value(v) =>
        assert forall x: nat :: x in e.valueToVar.Children(v) <==> v in e.valueToVar.Parents(x);
      case Var(v) =>
        assert forall x: nat :: x in e.varToVar.Children(v) <==> v in e.varToVar.Parents(x);
        assert e.varToVar.Children(a) == e.varToVar.Children(b);
        assert e.varToVar.Parents(a) == e.varToVar.Parents(b);
    }
  }

  /* Operand lists. */

  // Where "x" occurs first, or the length.
  function FirstAt(s: seq<nat>, x: nat): (i: nat)
    ensures i <= |s| && (i < |s| ==> s[i] == x)
    ensures forall j :: 0 <= j < i ==> s[j] != x
  {
    if s == [] || s[0] == x then 0 else 1 + FirstAt(s[1..], x)
  }

  // "s" with its first "before" replaced.
  function ReplaceFirst(s: seq<nat>, before: nat, after: nat): (r: seq<nat>)
    ensures |r| == |s|
    ensures forall x :: x in r ==> x == after || x in s
    ensures forall x :: x in s && x != before ==> x in r
    ensures before in s ==> after in r
  {
    var i := FirstAt(s, before);
    if i == |s| then s else
      var r := s[i := after];
      assert r[i] == after && forall x :: x in s && x != before ==> x in r by {
        forall x | x in s && x != before ensures x in r {
          var j :| 0 <= j < |s| && s[j] == x;
          assert r[j] == x;
        }
      }
      r
  }

  lemma ReplaceAbsent(s: seq<nat>, before: nat, after: nat)
    requires before !in s
    ensures ReplaceFirst(s, before, after) == s
  {
  }

  method ReplaceOperand(s: seq<nat>, before: nat, after: nat) returns (r: seq<nat>)
    ensures r == ReplaceFirst(s, before, after)
    ensures if before in s then exists i :: 0 <= i < |s| && s[i] == before && before !in s[..i] && r == s[i := after] else r == s
  {
    r := s;
    for i := 0 to |s|
      invariant r == s && forall j :: 0 <= j < i ==> s[j] != before
    {
      if r[i] == before {
        assert FirstAt(s, before) == i && before !in s[..i];
        r := r[i := after];
        return;
      }
    }
    assert FirstAt(s, before) == |s|;
  }

  /* The graph the pass works on. */

  // An alive phi has at least two operands in its list; the variables that flow into it are exactly
  // the alive operands, there is one, and only its predicates flow into it besides.
  ghost predicate PhiOk(e: DepEdges, nodes: set<nat>, ops: seq<nat>, preds: set<nat>, p: nat) {
    && |ops| >= 2
    && (forall n: nat :: (Var(n), Var(p)) in e.Arrows() <==> n in ops && n in nodes)
    && (exists n :: n in ops && n in nodes)
    && (forall v: nat :: (Value(v), Var(p)) in e.Arrows() ==> v in preds)
  }

  ghost predicate WellFormed(e: DepEdges, nodes: set<nat>, opsVar: map<nat, seq<nat>>, preds: map<nat, set<nat>>) {
    && e.Mirrored()
    && opsVar.Keys == preds.Keys
    && (forall p :: p in opsVar && p in nodes ==> PhiOk(e, nodes, opsVar[p], preds[p], p))
  }

  // A phi that passes the test meets the conditions of the rewrite, and its operands are alive.
  lemma PassedTest(e: DepEdges, nodes: set<nat>, opsVar: map<nat, seq<nat>>, preds: map<nat, set<nat>>, phi: nat)
    requires WellFormed(e, nodes, opsVar, preds) && phi in opsVar && phi in nodes
    requires AdjacentEquivalent(e, opsVar.Keys, opsVar[phi])
    ensures Eliminable(e.Arrows(), phi, Members(opsVar[phi]))
    ensures Members(opsVar[phi]) <= nodes && Members(opsVar[phi]) !! opsVar.Keys
  {
    var ops := opsVar[phi];
    var g := e.Arrows();
    assert PhiOk(e, nodes, ops, preds[phi], phi);
    forall o, q | o in ops && q in ops
      ensures Equivalent(e, opsVar.Keys, o, q)
    {
      var i :| 0 <= i < |ops| && ops[i] == o;
      var j :| 0 <= j < |ops| && ops[j] == q;
      AllEquivalent(e, opsVar.Keys, ops, if i <= j then i else j, if i <= j then j else i);
    }
    forall o, q, n: Node | o in ops && q in ops
      ensures (Var(o), n) in g <==> (Var(q), n) in g
      ensures (n, Var(o)) in g <==> (n, Var(q)) in g
    {
      EquivalentArrows(e, opsVar.Keys, o, q, n);
    }
    var alive :| alive in ops && alive in nodes;
    assert (Var(alive), Var(phi)) in g;
    forall o | o in ops ensures (Var(o), Var(phi)) in g && o in nodes && o !in opsVar {
      assert Equivalent(e, opsVar.Keys, o, alive);
    }
  }

  /* The pass. */

  // A phi's list after another phi was eliminated.
  function OpsAfter(ops: seq<nat>, changed: bool, phi: nat, kept: nat): seq<nat> {
    if changed then ReplaceFirst(ops, phi, kept) else ops
  }

  // Eliminating one phi leaves the other phis well-formed.
  lemma StaysWellFormed(e: DepEdges, e': DepEdges, nodes: set<nat>, ops: seq<nat>, preds: set<nat>, p: nat,
                        phi: nat, gone: set<nat>, kept: nat)
    requires PhiOk(e, nodes, ops, preds, p) && p != phi
    requires Eliminable(e.Arrows(), phi, gone) && kept in gone && gone <= nodes && phi in nodes && p !in gone
    requires e'.Arrows() == Rewired(e.Arrows(), phi, gone, kept)
    ensures PhiOk(e', nodes - (gone - {kept}) - {phi},
                  OpsAfter(ops, (Var(phi), Var(p)) in e.Arrows(), phi, kept), preds, p)
  {
    var g, g' := e.Arrows(), e'.Arrows();
    var nodes' := nodes - (gone - {kept}) - {phi};
    var ops' := OpsAfter(ops, (Var(phi), Var(p)) in g, phi, kept);
    forall n: nat ensures (Var(n), Var(p)) in g' <==> n in ops' && n in nodes' {
      assert (Var(n), Var(p)) in g <==> n in ops && n in nodes;
      assert (Var(phi), Var(p)) in g <==> phi in ops && phi in nodes;
      assert (Var(kept), Var(p)) in g <==> kept in ops && kept in nodes;
    }
    var n :| n in ops && n in nodes;
    assert (Var(n), Var(p)) in g;
    var n' := if n in nodes' then n else kept;
    assert (Var(n'), Var(p)) in g';
    assert n' in ops' && n' in nodes';
  }

  function VarTargets(e: DepEdges, phi: nat): (r: set<Node>)
    ensures forall n: Node :: n in r <==> (Var(phi), n) in e.Arrows() && n.Var?
  {
    set v | v in e.varToVar.Children(phi) :: Var(v)
  }

  function ValueTargets(e: DepEdges, phi: nat): (r: set<Node>)
    ensures forall n: Node :: n in r <==> (Var(phi), n) in e.Arrows() && n.Value?
  {
    set v | v in e.varToValue.Children(phi) :: Value(v)
  }

  /* Which edges are there to remove. */

  // All predicates of the phi flow into it.
  ghost predicate PredsLinked(g: iset<Arrow>, preds: set<nat>, phi: nat) {
    forall v :: v in preds ==> (Value(v), Var(phi)) in g
  }

  // A graph built without predicate edges has what is looked for only where there are no predicates.
  lemma WithoutPredEdges(g: iset<Arrow>, preds: set<nat>, phi: nat)
    requires forall v: nat :: (Value(v), Var(phi)) !in g
    ensures PredsLinked(g, preds, phi) <==> preds == {}
  {
    if preds != {} {
      var v :| v in preds;
      assert (Value(v), Var(phi)) !in g;
    }
  }

  // No edge leads from one of the variables to one of them.
  ghost predicate Unlinked(g: iset<Arrow>, vars: set<nat>) {
    forall o, q :: o in vars && q in vars ==> (Var(o), Var(q)) !in g
  }

  // For equivalent operands: two that are given up are linked exactly if the one that is kept is
  // linked to itself.
  lemma UnlinkedIffNoLoop(g: iset<Arrow>, phi: nat, ops: set<nat>, kept: nat)
    requires Eliminable(g, phi, ops) && kept in ops
    ensures Unlinked(g, ops - {kept}) <==> ops == {kept} || (Var(kept), Var(kept)) !in g
  {
    if ops != {kept} {
      var o :| o in ops && o != kept;
      assert (Var(kept), Var(kept)) in g <==> (Var(o), Var(o)) in g;
    }
  }

  // Two variables that flow into themselves and each other, and a phi of both.
  function TwoLoops(): DepEdges {
    var none := EdgeMaps(map[], map[]);
    DepEdges(none, none, none, EdgeMaps(map[0 := {0, 1, 2}, 1 := {0, 1, 2}], map[0 := {0, 1}, 1 := {0, 1}, 2 := {0, 1}]))
  }

  // A well-formed graph whose phi passes the test, and whose operands are linked whichever is kept.
  lemma LinkedOperands(kept: nat)
    requires kept == 0 || kept == 1
    ensures var e := TwoLoops();
      && WellFormed(e, {0, 1, 2}, map[2 := [0, 1]], map[2 := {}]) && AdjacentEquivalent(e, {2}, [0, 1])
      && !Unlinked(e.Arrows(), {0, 1} - {kept})
  {
    var e := TwoLoops();
    assert (Var(1 - kept), Var(1 - kept)) in e.Arrows();
    TwoLoopsPhi();
    hide DepEdges.Arrows;
  }

  lemma TwoLoopsPhi()
    ensures TwoLoops().Mirrored() && PhiOk(TwoLoops(), {0, 1, 2}, [0, 1], {}, 2)
  {
    assert 0 in [0, 1] && 1 in [0, 1];
  }

  // Moving the phi's edges does not link operands that are given up.
  lemma SameLinks(g: iset<Arrow>, h: iset<Arrow>, phi: nat, ops: set<nat>, kept: nat)
    requires phi !in ops && kept in ops
    requires forall o, q :: o in ops - {kept} && q in ops ==> ((Var(o), Var(q)) in h <==> (Var(o), Var(q)) in g)
    ensures Unlinked(h, ops - {kept}) <==> Unlinked(g, ops - {kept})
  {
    assert forall q :: q in ops - {kept} ==> q in ops;
  }

  // Unlinking the phi, moving its children and dropping the other operands is the rewrite.
  lemma StepsRewire(g: iset<Arrow>, unlinked: iset<Arrow>, moved: iset<Arrow>, h: iset<Arrow>, phi: nat, ops: set<nat>, kept: nat)
    requires phi !in ops && kept in ops
    requires unlinked == iset e: Arrow | e in g && e.1 != Var(phi)
    requires moved == iset e: Arrow | e.0 != Var(phi) && (e in unlinked || (e.0 == Var(kept) && (Var(phi), e.1) in unlinked))
    requires h == iset e: Arrow |
      e in moved && !(e.0.Var? && e.0.id in ops - {kept}) && !(e.1.Var? && e.1.id in ops - {kept})
    ensures h == Rewired(g, phi, ops, kept)
  {
  }

  function VarsInto(e: DepEdges, vars: set<nat>): (r: set<Arrow>)
    requires e.Mirrored()
    ensures forall a: Arrow :: a in r <==> a in e.Arrows() && a.0.Var? && a.1.Var? && a.1.id in vars
  {
    assert forall o: nat, v: nat :: o in e.varToVar.Children(v) <==> v in e.varToVar.Parents(o);
    set o, v | o in vars && v in e.varToVar.Parents(o) :: (Var(v), Var(o))
  }

  function VarsOutOf(e: DepEdges, vars: set<nat>): (r: set<Arrow>)
    ensures forall a: Arrow :: a in r <==> a in e.Arrows() && a.1.Var? && a.0.Var? && a.0.id in vars
  {
    set o, v | o in vars && v in e.varToVar.Children(o) :: (Var(o), Var(v))
  }

  function ValuesInto(e: DepEdges, vars: set<nat>): (r: set<Arrow>)
    requires e.Mirrored()
    ensures forall a: Arrow :: a in r <==> a in e.Arrows() && a.0.Value? && a.1.Var? && a.1.id in vars
  {
    assert forall o: nat, v: nat :: o in e.valueToVar.Children(v) <==> v in e.valueToVar.Parents(o);
    set o, v | o in vars && v in e.valueToVar.Parents(o) :: (Value(v), Var(o))
  }

  function ValuesOutOf(e: DepEdges, vars: set<nat>): (r: set<Arrow>)
    ensures forall a: Arrow :: a in r <==> a in e.Arrows() && a.1.Value? && a.0.Var? && a.0.id in vars
  {
    set o, v | o in vars && v in e.varToValue.Children(o) :: (Var(o), Value(v))
  }

  class Pass {
    var edges: DepEdges
    var nodes: set<nat>                // the variables still in the graph
    var opsVar: map<nat, seq<nat>>     // the operands of every phi
    const preds: map<nat, set<nat>>    // the predicates of every phi

    constructor (edges: DepEdges, nodes: set<nat>, opsVar: map<nat, seq<nat>>, preds: map<nat, set<nat>>)
      ensures this.edges == edges && this.nodes == nodes && this.opsVar == opsVar && this.preds == preds
    {
      this.edges, this.nodes, this.opsVar, this.preds := edges, nodes, opsVar, preds;
    }

    ghost predicate Valid() reads this {
      WellFormed(edges, nodes, opsVar, preds)
    }

    method AddEdges(arrows: set<Arrow>)
      requires edges.Mirrored()
      modifies this`edges
      ensures edges.Mirrored()
      ensures edges.Arrows() == old(edges.Arrows()) + iset e: Arrow | e in arrows
    {
      var todo := arrows;
      while todo != {}
        invariant todo <= arrows && edges.Mirrored()
        invariant edges.Arrows() == old(edges.Arrows()) + iset e: Arrow | e in arrows - todo
      {
        var e :| e in todo;
        edges := edges.Add(e.0, e.1);
        todo := todo - {e};
      }
    }

    // Reports whether every edge was there to remove.
    method RemoveEdges(arrows: set<Arrow>) returns (found: bool)
      requires edges.Mirrored()
      modifies this`edges
      ensures edges.Mirrored()
      ensures edges.Arrows() == old(edges.Arrows()) - iset e: Arrow | e in arrows
      ensures found <==> forall e :: e in arrows ==> e in old(edges.Arrows())
    {
      found := true;
      var todo := arrows;
      while todo != {}
        invariant todo <= arrows && edges.Mirrored()
        invariant edges.Arrows() == old(edges.Arrows()) - iset e: Arrow | e in arrows - todo
        invariant found <==> forall e :: e in arrows - todo ==> e in old(edges.Arrows())
      {
        var e :| e in todo;
        found := found && edges.Has(e.0, e.1);
        assert e in edges.Arrows() <==> e in old(edges.Arrows());
        edges := edges.Remove(e.0, e.1);
        assert forall a :: a in arrows - (todo - {e}) <==> a in arrows - todo || a == e;
        todo := todo - {e};
      }
    }

    // The phis among the children of "phi" take "kept" for the first "phi" in their lists.
    method ReplaceInChildren(phi: nat, kept: nat)
      modifies this`opsVar
      ensures opsVar.Keys == old(opsVar.Keys)
      ensures forall p :: p in opsVar ==>
        opsVar[p] == OpsAfter(old(opsVar)[p], (Var(phi), Var(p)) in edges.Arrows(), phi, kept)
    {
      var children := edges.varToVar.Children(phi);
      var todo := children;
      while todo != {}
        invariant todo <= children && opsVar.Keys == old(opsVar.Keys)
        invariant forall p :: p in opsVar ==> opsVar[p] == OpsAfter(old(opsVar)[p], p in children - todo, phi, kept)
      {
        var v :| v in todo;
        if v in opsVar {
          var replaced := ReplaceOperand(opsVar[v], phi, kept);
          opsVar := opsVar[v := replaced];
        }
        todo := todo - {v};
      }
    }

    // Edges from the phi to "targets" move to "kept".
    method MoveEdges(phi: nat, kept: nat, targets: set<Node>) returns (found: bool)
      requires edges.Mirrored() && kept != phi
      modifies this`edges
      ensures edges.Mirrored()
      ensures edges.Arrows() == iset e: Arrow |
        !(e.0 == Var(phi) && e.1 in targets) && (e in old(edges.Arrows()) || (e.0 == Var(kept) && e.1 in targets))
      ensures found <==> forall n :: n in targets ==> (Var(phi), n) in old(edges.Arrows())
    {
      hide DepEdges.Arrows;
      AddEdges(set n | n in targets :: (Var(kept), n));
      ghost var g := edges.Arrows();
      found := RemoveEdges(set n | n in targets :: (Var(phi), n));
      assert forall n :: (Var(phi), n) in g <==> (Var(phi), n) in old(edges.Arrows());
    }

    // The phi's outgoing edges move to "kept": first to variables, then to values.
    method MoveChildren(phi: nat, kept: nat) returns (found: bool)
      requires edges.Mirrored() && kept != phi
      modifies this`edges, this`opsVar
      ensures edges.Mirrored() && opsVar.Keys == old(opsVar.Keys)
      ensures forall p :: p in opsVar ==>
        opsVar[p] == OpsAfter(old(opsVar)[p], (Var(phi), Var(p)) in old(edges.Arrows()), phi, kept)
      ensures edges.Arrows() == iset e: Arrow |
        e.0 != Var(phi) && (e in old(edges.Arrows()) || (e.0 == Var(kept) && (Var(phi), e.1) in old(edges.Arrows())))
      ensures found
    {
      ghost var g := edges.Arrows();
      ReplaceInChildren(phi, kept);
      var vars := VarTargets(edges, phi);
      var foundVars := MoveEdges(phi, kept, vars);
      var values := ValueTargets(edges, phi);
      var foundValues := MoveEdges(phi, kept, values);
      found := foundVars && foundValues;
      hide DepEdges.Arrows, OpsAfter;
      assert forall n: Node :: n in values <==> (Var(phi), n) in g && n.Value?;
    }

    // Edges from variables into "others", then those from "others" to variables. An edge between two
    // of them is looked for twice: as an incoming edge of one and as an outgoing edge of the other.
    method RemoveVarEdges(others: set<nat>) returns (found: bool)
      requires edges.Mirrored()
      modifies this`edges
      ensures edges.Mirrored()
      ensures edges.Arrows() == iset e: Arrow | e in old(edges.Arrows()) &&
        !(e.0.Var? && e.1.Var? && (e.0.id in others || e.1.id in others))
      ensures found <==> Unlinked(old(edges.Arrows()), others)
    {
      var into := VarsInto(edges, others);
      var outOf := VarsOutOf(edges, others);
      hide DepEdges.Arrows;
      ghost var g := edges.Arrows();
      var foundInto := RemoveEdges(into);
      var foundOut := RemoveEdges(outOf);
      assert foundInto;
      assert foundOut <==> Unlinked(g, others) by {
        if foundOut {
          forall o, q | o in others && q in others ensures (Var(o), Var(q)) !in g {
            assert (Var(o), Var(q)) in g ==> (Var(o), Var(q)) in into && (Var(o), Var(q)) in outOf;
          }
        }
      }
      found := foundInto && foundOut;
    }

    // All edges at the operands that are given up.
    method RemoveOperands(others: set<nat>) returns (found: bool)
      requires edges.Mirrored()
      modifies this`edges
      ensures edges.Mirrored()
      ensures edges.Arrows() == iset e: Arrow |
        e in old(edges.Arrows()) && !(e.0.Var? && e.0.id in others) && !(e.1.Var? && e.1.id in others)
      ensures found <==> Unlinked(old(edges.Arrows()), others)
    {
      var toValues := ValuesOutOf(edges, others);
      var fromValues := ValuesInto(edges, others);
      var foundVars := RemoveVarEdges(others);
      hide DepEdges.Arrows, Unlinked;
      var foundTo := RemoveEdges(toValues);
      var foundFrom := RemoveEdges(fromValues);
      assert foundTo && foundFrom;
      found := foundVars && foundTo && foundFrom;
    }

    // Nothing flows into the phi any more: neither its predicates nor its operands.
    method UnlinkPhi(phi: nat, ops: set<nat>) returns (found: bool)
      requires edges.Mirrored() && Eliminable(edges.Arrows(), phi, ops) && phi in preds
      requires forall v: nat :: (Value(v), Var(phi)) in edges.Arrows() ==> v in preds[phi]
      modifies this`edges
      ensures edges.Mirrored()
      ensures edges.Arrows() == iset e: Arrow | e in old(edges.Arrows()) && e.1 != Var(phi)
      ensures found <==> PredsLinked(old(edges.Arrows()), preds[phi], phi)
    {
      hide DepEdges.Arrows;
      ghost var g := edges.Arrows();
      var fromPreds: set<Arrow> := set v | v in preds[phi] :: (Value(v), Var(phi));
      var foundPreds := RemoveEdges(fromPreds);
      assert foundPreds <==> PredsLinked(g, preds[phi], phi) by {
        assert forall v: nat :: v in preds[phi] ==> (Value(v), Var(phi)) in fromPreds;
      }
      var foundOps := RemoveEdges(set o | o in ops :: (Var(o), Var(phi)));
      assert foundOps;
      forall e: Arrow | e in g && e.1 == Var(phi) ensures e !in edges.Arrows() {
        match e.0 {
          case Value(v) => assert e == (Value(v), Var(phi)) && v in preds[phi];
          case Var(o) => assert e == (Var(o), Var(phi)) && o in ops;
        }
      }
      found := foundPreds && foundOps;
    }

    // The edges of "phi" and of all but one operand are gone, and that one inherits the phi's.
    method MergeEdges(phi: nat, ops: set<nat>, kept: nat) returns (found: bool)
      requires edges.Mirrored() && Eliminable(edges.Arrows(), phi, ops) && kept in ops && phi in preds
      requires forall v: nat :: (Value(v), Var(phi)) in edges.Arrows() ==> v in preds[phi]
      modifies this`edges, this`opsVar
      ensures edges.Mirrored() && opsVar.Keys == old(opsVar.Keys)
      ensures forall p :: p in opsVar && p != phi ==>
        opsVar[p] == OpsAfter(old(opsVar)[p], (Var(phi), Var(p)) in old(edges.Arrows()), phi, kept)
      ensures edges.Arrows() == Rewired(old(edges.Arrows()), phi, ops, kept)
      ensures found <==> PredsLinked(old(edges.Arrows()), preds[phi], phi) && Unlinked(old(edges.Arrows()), ops - {kept})
    {
      ghost var g := edges.Arrows();
      var foundInto := UnlinkPhi(phi, ops);
      hide DepEdges.Arrows, OpsAfter, PredsLinked, Unlinked, Eliminable, Rewired;
      ghost var unlinked := edges.Arrows();
      var foundChildren := MoveChildren(phi, kept);
      ghost var moved := edges.Arrows();
      SameLinks(g, moved, phi, ops, kept);
      var foundOthers := RemoveOperands(ops - {kept});
      found := foundInto && foundChildren && foundOthers;
      StepsRewire(g, unlinked, moved, edges.Arrows(), phi, ops, kept);
    }

    // The phi and its operands become one node, "kept". All edges that are removed are there
    // exactly if the predicates of the phi are linked to it and the operands given up are not
    // linked to each other.
    method EliminatePhi(phi: nat) returns (ghost kept: nat, found: bool)
      requires Valid() && phi in opsVar && phi in nodes
      requires AdjacentEquivalent(edges, opsVar.Keys, opsVar[phi])
      modifies this
      ensures Valid() && opsVar.Keys == old(opsVar.Keys)
      ensures kept in old(Members(opsVar[phi]))
      ensures edges.Arrows() == Rewired(old(edges.Arrows()), phi, old(Members(opsVar[phi])), kept)
      ensures nodes == old(nodes) - (old(Members(opsVar[phi])) - {kept}) - {phi}
      ensures forall p :: p in opsVar && p != phi ==>
        opsVar[p] == OpsAfter(old(opsVar)[p], (Var(phi), Var(p)) in old(edges.Arrows()), phi, kept)
      ensures found <==> PredsLinked(old(edges.Arrows()), preds[phi], phi)
                         && Unlinked(old(edges.Arrows()), old(Members(opsVar[phi])) - {kept})
    {
      PassedTest(edges, nodes, opsVar, preds, phi);
      assert PhiOk(edges, nodes, opsVar[phi], preds[phi], phi);
      hide PhiOk, Rewired, Eliminable, DepEdges.Arrows, ReplaceFirst, AdjacentEquivalent, PredsLinked, Unlinked;
      var ops := Members(opsVar[phi]);
      assert opsVar[phi][0] in ops;
      var first :| first in ops;
      kept := first;
      found := MergeEdges(phi, ops, first);
      nodes := nodes - {phi};
      nodes := nodes - (ops - {first});
      assert nodes == old(nodes) - (ops - {first}) - {phi};
      forall p | p in opsVar && p in nodes ensures PhiOk(edges, nodes, opsVar[p], preds[p], p) {
        StaysWellFormed(old(edges), edges, old(nodes), old(opsVar)[p], preds[p], p, phi, ops, kept);
      }
    }
  }
}
