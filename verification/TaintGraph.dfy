// The dependence graph: top-level values and address-taken SSA variables, four kinds of edges, each
// kept twice (as children and as parents), and what it means for a node to be tainted.
module TaintGraph {

  datatype Node = Value(id: nat) | Var(id: nat)

  type Arrow = (Node, Node)

  // One kind of edges. Looking an entry up for update creates it, so a key may map to an empty set.
  datatype EdgeMaps = EdgeMaps(children: map<nat, set<nat>>, parents: map<nat, set<nat>>) {

    function Children(n: nat): set<nat> {
      if n in children then children[n] else {}
    }

    function Parents(n: nat): set<nat> {
      if n in parents then parents[n] else {}
    }

    // The two maps are inverse to each other.
    ghost predicate Mirrored() {
      forall s: nat, d: nat :: d in Children(s) <==> s in Parents(d)
    }

    function Link(s: nat, d: nat): (r: EdgeMaps)
      ensures forall a: nat, b: nat :: b in r.Children(a) <==> b in Children(a) || (a == s && b == d)
      ensures forall a: nat, b: nat :: a in r.Parents(b) <==> a in Parents(b) || (a == s && b == d)
      ensures Mirrored() ==> r.Mirrored()
    {
      EdgeMaps(children[s := Children(s) + {d}], parents[d := Parents(d) + {s}])
    }

    function Unlink(s: nat, d: nat): (r: EdgeMaps)
      ensures forall a: nat, b: nat :: b in r.Children(a) <==> b in Children(a) && !(a == s && b == d)
      ensures forall a: nat, b: nat :: a in r.Parents(b) <==> a in Parents(b) && !(a == s && b == d)
      ensures Mirrored() ==> r.Mirrored()
    {
      EdgeMaps(children[s := Children(s) - {d}], parents[d := Parents(d) - {s}])
    }
  }

  datatype DepEdges = DepEdges(valueToValue: EdgeMaps, valueToVar: EdgeMaps, varToValue: EdgeMaps, varToVar: EdgeMaps) {

    predicate Has(s: Node, d: Node) {
      match (s, d)
      case (Value(a), Value(b)) => b in valueToValue.Children(a)
      case (Value(a), Var(b)) => b in valueToVar.Children(a)
      case (Var(a), Value(b)) => b in varToValue.Children(a)
      case (Var(a), Var(b)) => b in varToVar.Children(a)
    }

    ghost predicate Mirrored() {
      valueToValue.Mirrored() && valueToVar.Mirrored() && varToValue.Mirrored() && varToVar.Mirrored()
    }

    ghost function Arrows(): iset<Arrow> {
      iset e: Arrow | Has(e.0, e.1)
    }

    function Add(s: Node, d: Node): (r: DepEdges)
      ensures Mirrored() ==> r.Mirrored()
      ensures r.Arrows() == Arrows() + iset{(s, d)}
    {
      match (s, d)
      case (Value(a), Value(b)) => this.(valueToValue := valueToValue.Link(a, b))
      case (Value(a), Var(b)) => this.(valueToVar := valueToVar.Link(a, b))
      case (Var(a), Value(b)) => this.(varToValue := varToValue.Link(a, b))
      case (Var(a), Var(b)) => this.(varToVar := varToVar.Link(a, b))
    }

    function Remove(s: Node, d: Node): (r: DepEdges)
      ensures Mirrored() ==> r.Mirrored()
      ensures r.Arrows() == Arrows() - iset{(s, d)}
    {
      match (s, d)
      case (Value(a), Value(b)) => this.(valueToValue := valueToValue.Unlink(a, b))
      case (Value(a), Var(b)) => this.(valueToVar := valueToVar.Unlink(a, b))
      case (Var(a), Value(b)) => this.(varToValue := varToValue.Unlink(a, b))
      case (Var(a), Var(b)) => this.(varToVar := varToVar.Unlink(a, b))
    }
  }

  /* What taint means, independently of how it is computed. */

  // "x" holds the sources and everything a member that is not a reset node flows to.
  ghost predicate Floods(g: iset<Arrow>, sources: iset<Node>, resets: iset<Node>, x: iset<Node>) {
    && sources <= x
    && forall a: Node, b: Node :: (a, b) in g && a in x && a !in resets ==> b in x
  }

  // The least such set.
  ghost predicate Tainted(g: iset<Arrow>, sources: iset<Node>, resets: iset<Node>, n: Node) {
    forall x: iset<Node> :: Floods(g, sources, resets, x) ==> n in x
  }

  // Some way from "a" to "b".
  ghost predicate FlowsTo(g: iset<Arrow>, a: Node, b: Node) {
    Tainted(g, iset{a}, iset{}, b)
  }

  // A path that leaves no reset node.
  ghost predicate IsFlow(g: iset<Arrow>, resets: iset<Node>, p: seq<Node>) {
    && p != []
    && forall i, j :: 0 <= i < j < |p| && j == i + 1 ==> (p[i], p[j]) in g && p[i] !in resets
  }

  ghost predicate HasFlow(g: iset<Arrow>, sources: iset<Node>, resets: iset<Node>, n: Node) {
    exists p :: IsFlow(g, resets, p) && p[0] in sources && p[|p| - 1] == n
  }

  lemma {:induction false} FlowStaysInside(g: iset<Arrow>, sources: iset<Node>, resets: iset<Node>, p: seq<Node>, x: iset<Node>)
    requires IsFlow(g, resets, p) && p[0] in x
    requires Floods(g, sources, resets, x)
    ensures p[|p| - 1] in x
  {
    if |p| > 1 {
      var q := p[..|p| - 1];
      assert q[0] == p[0];
      forall i, j | 0 <= i < j < |q| && j == i + 1 ensures (q[i], q[j]) in g && q[i] !in resets {
        assert q[i] == p[i] && q[j] == p[j];
      }
      FlowStaysInside(g, sources, resets, q, x);
      assert q[|q| - 1] == p[|p| - 2];
      assert (p[|p| - 2], p[|p| - 1]) in g;
    }
  }

  lemma ExtendFlow(g: iset<Arrow>, sources: iset<Node>, resets: iset<Node>, a: Node, b: Node)
    requires HasFlow(g, sources, resets, a) && (a, b) in g && a !in resets
    ensures HasFlow(g, sources, resets, b)
  {
    var p :| IsFlow(g, resets, p) && p[0] in sources && p[|p| - 1] == a;
    var q := p + [b];
    forall i, j | 0 <= i < j < |q| && j == i + 1 ensures (q[i], q[j]) in g && q[i] !in resets {
      if j == |p| {
        assert q[i] == a && q[j] == b;
      } else {
        assert q[i] == p[i] && q[j] == p[j];
      }
    }
    assert IsFlow(g, resets, q) && q[|q| - 1] == b;
  }

  // A node is tainted exactly when some path from a source leads to it and passes no reset node on
  // the way; the node itself may be one.
  lemma TaintedIffFlow(g: iset<Arrow>, sources: iset<Node>, resets: iset<Node>, n: Node)
    ensures Tainted(g, sources, resets, n) <==> HasFlow(g, sources, resets, n)
  {
    var all := iset m: Node | HasFlow(g, sources, resets, m);
    forall s | s in sources ensures s in all {
      assert IsFlow(g, resets, [s]);
    }
    forall a: Node, b: Node | (a, b) in g && a in all && a !in resets ensures b in all {
      ExtendFlow(g, sources, resets, a, b);
    }
    assert Floods(g, sources, resets, all);
    if HasFlow(g, sources, resets, n) {
      var p :| IsFlow(g, resets, p) && p[0] in sources && p[|p| - 1] == n;
      forall x | Floods(g, sources, resets, x) ensures n in x {
        FlowStaysInside(g, sources, resets, p, x);
      }
    }
  }
}
