// Flooding the dependence graph from its sources, with one queue for variables and one for values.
module TaintFlood {
  import opened Sequences
  import opened TaintGraph

  // The nodes that are tainted.
  datatype Taint = Taint(vars: set<nat>, values: set<nat>) {
    predicate Has(n: Node) {
      match n
      case Value(v) => v in values
      case Var(v) => v in vars
    }

    ghost function Nodes(): iset<Node> {
      iset n: Node | Has(n)
    }
  }

  ghost predicate IsLeastFlood(g: iset<Arrow>, sources: iset<Node>, resets: iset<Node>, x: iset<Node>) {
    Floods(g, sources, resets, x) && forall y :: Floods(g, sources, resets, y) ==> x <= y
  }

  lemma LeastFloodIsTaint(g: iset<Arrow>, sources: iset<Node>, resets: iset<Node>, x: iset<Node>)
    requires IsLeastFlood(g, sources, resets, x)
    ensures forall n: Node :: n in x <==> Tainted(g, sources, resets, n)
  {
  }

  // All that flows out of "n" is tainted already, or "n" is a reset node.
  ghost predicate Settled(e: DepEdges, resets: set<nat>, t: Taint, n: Node) {
    match n
    case Value(v) => e.valueToValue.Children(v) <= t.values && e.valueToVar.Children(v) <= t.vars
    case Var(v) => v in resets || (e.varToVar.Children(v) <= t.vars && e.varToValue.Children(v) <= t.values)
  }

  predicate Queued(varQueue: seq<nat>, valueQueue: seq<nat>, n: Node) {
    match n
    case Value(v) => v in valueQueue
    case Var(v) => v in varQueue
  }

  ghost function Resets(resets: set<nat>): iset<Node> {
    iset n: Node | n.Var? && n.id in resets
  }

  ghost predicate FloodInv(e: DepEdges, resets: set<nat>, t0: Taint, t: Taint, varQueue: seq<nat>, valueQueue: seq<nat>) {
    && t0.vars <= t.vars && t0.values <= t.values
    && (forall n: Node :: Queued(varQueue, valueQueue, n) ==> t.Has(n))
    && (forall n: Node :: t.Has(n) && !Queued(varQueue, valueQueue, n) ==> Settled(e, resets, t, n))
    && (forall y :: Floods(e.Arrows(), t0.Nodes(), Resets(resets), y) ==> t.Nodes() <= y)
  }

  // The children of a node: those not tainted yet become so and are queued.
  method Spread(children: set<nat>, tainted: set<nat>, queue: seq<nat>) returns (tainted': set<nat>, queue': seq<nat>)
    ensures tainted' == tainted + children
    ensures forall x :: x in queue' <==> x in queue || x in children - tainted
    ensures tainted' == tainted ==> queue' == queue
  {
    tainted', queue' := tainted, queue;
    var todo := children;
    while todo != {}
      invariant todo <= children
      invariant tainted' == tainted + (children - todo)
      invariant forall x :: x in queue' <==> x in queue || x in (children - todo) - tainted
      invariant tainted' == tainted ==> queue' == queue
    {
      var d :| d in todo;
      todo := todo - {d};
      if d !in tainted' {
        tainted', queue' := tainted' + {d}, queue' + [d];
      }
    }
  }

  // Handling one node keeps the invariant: its children join the taint and the queues. "rest" is
  // what the queues held besides the node.
  lemma VisitKeepsInv(e: DepEdges, resets: set<nat>, t0: Taint, t: Taint, varQueue: seq<nat>, valueQueue: seq<nat>,
                      n: Node, vars: set<nat>, values: set<nat>, varRest: seq<nat>, valueRest: seq<nat>,
                      varQueue': seq<nat>, valueQueue': seq<nat>)
    requires FloodInv(e, resets, t0, t, varQueue, valueQueue) && Queued(varQueue, valueQueue, n)
    requires forall x :: x in vars ==> e.Has(n, Var(x)) && !(n.Var? && n.id in resets)
    requires forall x :: x in values ==> e.Has(n, Value(x)) && !(n.Var? && n.id in resets)
    requires Settled(e, resets, Taint(t.vars + vars, t.values + values), n)
    requires forall x: nat :: x in varRest ==> x in varQueue
    requires forall x: nat :: x in varQueue && Var(x) != n ==> x in varRest
    requires forall x: nat :: x in valueRest ==> x in valueQueue
    requires forall x: nat :: x in valueQueue && Value(x) != n ==> x in valueRest
    requires forall x :: x in varQueue' <==> x in varRest || x in vars - t.vars
    requires forall x :: x in valueQueue' <==> x in valueRest || x in values - t.values
    ensures FloodInv(e, resets, t0, Taint(t.vars + vars, t.values + values), varQueue', valueQueue')
  {
    var t' := Taint(t.vars + vars, t.values + values);
    forall y | Floods(e.Arrows(), t0.Nodes(), Resets(resets), y) ensures t'.Nodes() <= y {
      assert t.Nodes() <= y && n in t.Nodes();
      forall m: Node | t'.Has(m) ensures m in y {
        if t.Has(m) {
          assert m in t.Nodes();
        } else {
          assert (n, m) in e.Arrows();
        }
      }
    }
    forall m: Node | Queued(varQueue', valueQueue', m) ensures t'.Has(m) {
      assert Queued(varQueue, valueQueue, m) ==> t.Has(m);
    }
    forall m: Node | t'.Has(m) && !Queued(varQueue', valueQueue', m) ensures Settled(e, resets, t', m) {
      assert m == n || (t.Has(m) && !Queued(varQueue, valueQueue, m));
    }
  }

  lemma DrainedIsLeast(e: DepEdges, resets: set<nat>, t0: Taint, t: Taint)
    requires FloodInv(e, resets, t0, t, [], [])
    ensures IsLeastFlood(e.Arrows(), t0.Nodes(), Resets(resets), t.Nodes())
  {
    forall a: Node, b: Node | (a, b) in e.Arrows() && a in t.Nodes() && a !in Resets(resets) ensures b in t.Nodes() {
      assert Settled(e, resets, t, a);
    }
  }

  ghost function Targets(m: map<nat, set<nat>>): set<nat> {
    set s, d | s in m && d in m[s] :: d
  }

  // How much can still become tainted.
  ghost function Room(e: DepEdges, t: Taint): nat {
    |(Targets(e.varToVar.children) + Targets(e.valueToVar.children)) - t.vars|
    + |(Targets(e.varToValue.children) + Targets(e.valueToValue.children)) - t.values|
  }

  lemma FewerLeft(all: set<nat>, s: set<nat>, s': set<nat>)
    requires s <= s'
    ensures |all - s'| <= |all - s|
    ensures s' - s <= all && s' != s ==> |all - s'| < |all - s|
  {
    var kept := all - s';
    assert all - s == kept + ((all - s) * s');
    assert |all - s| == |kept| + |(all - s) * s'|;
    if s' - s <= all && s' != s {
      assert (all - s) * s' == s' - s;
      assert s' == s + (s' - s);
      assert s' - s != {};
    }
  }

  // Room shrinks whenever children of some node were added to the taint.
  lemma RoomShrinks(e: DepEdges, t: Taint, t': Taint)
    requires t.vars <= t'.vars && t.values <= t'.values
    requires t'.vars - t.vars <= Targets(e.varToVar.children) + Targets(e.valueToVar.children)
    requires t'.values - t.values <= Targets(e.varToValue.children) + Targets(e.valueToValue.children)
    ensures Room(e, t') <= Room(e, t)
    ensures t' != t ==> Room(e, t') < Room(e, t)
  {
    FewerLeft(Targets(e.varToVar.children) + Targets(e.valueToVar.children), t.vars, t'.vars);
    FewerLeft(Targets(e.varToValue.children) + Targets(e.valueToValue.children), t.values, t'.values);
  }

  method VisitVar(e: DepEdges, resets: set<nat>, ghost t0: Taint, t: Taint, varQueue: seq<nat>, valueQueue: seq<nat>)
    returns (t': Taint, varQueue': seq<nat>, valueQueue': seq<nat>)
    requires varQueue != [] && FloodInv(e, resets, t0, t, varQueue, valueQueue)
    ensures FloodInv(e, resets, t0, t', varQueue', valueQueue')
    ensures Room(e, t') < Room(e, t) || (Room(e, t') == Room(e, t) && varQueue' == varQueue[1..] && valueQueue' == valueQueue)
  {
    hide FloodInv, Room;
    var s, rest := varQueue[0], varQueue[1..];
    assert varQueue == [s] + rest;
    if s in resets {
      t', varQueue', valueQueue' := t, rest, valueQueue;
      assert t == Taint(t.vars + {}, t.values + {});
      VisitKeepsInv(e, resets, t0, t, varQueue, valueQueue, Var(s), {}, {}, rest, valueQueue, varQueue', valueQueue');
    } else {
      var vars, values;
      vars, varQueue' := Spread(e.varToVar.Children(s), t.vars, rest);
      values, valueQueue' := Spread(e.varToValue.Children(s), t.values, valueQueue);
      t' := Taint(vars, values);
      RoomShrinks(e, t, t');
      VisitKeepsInv(e, resets, t0, t, varQueue, valueQueue, Var(s), e.varToVar.Children(s), e.varToValue.Children(s),
                    rest, valueQueue, varQueue', valueQueue');
    }
  }

  method VisitValue(e: DepEdges, resets: set<nat>, ghost t0: Taint, t: Taint, varQueue: seq<nat>, valueQueue: seq<nat>)
    returns (t': Taint, varQueue': seq<nat>, valueQueue': seq<nat>)
    requires valueQueue != [] && FloodInv(e, resets, t0, t, varQueue, valueQueue)
    ensures FloodInv(e, resets, t0, t', varQueue', valueQueue')
    ensures Room(e, t') < Room(e, t) || (Room(e, t') == Room(e, t) && varQueue' == varQueue && valueQueue' == valueQueue[1..])
  {
    hide FloodInv, Room;
    var s, rest := valueQueue[0], valueQueue[1..];
    assert valueQueue == [s] + rest;
    var vars, values;
    values, valueQueue' := Spread(e.valueToValue.Children(s), t.values, rest);
    vars, varQueue' := Spread(e.valueToVar.Children(s), t.vars, varQueue);
    t' := Taint(vars, values);
    RoomShrinks(e, t, t');
    VisitKeepsInv(e, resets, t0, t, varQueue, valueQueue, Value(s), e.valueToVar.Children(s), e.valueToValue.Children(s),
                  varQueue, rest, varQueue', valueQueue');
  }

  // Both queues are emptied, a variable and a value in turn.
  method Drain(e: DepEdges, resets: set<nat>, t0: Taint, varQueue0: seq<nat>, valueQueue0: seq<nat>) returns (t: Taint)
    requires FloodInv(e, resets, t0, t0, varQueue0, valueQueue0)
    ensures IsLeastFlood(e.Arrows(), t0.Nodes(), Resets(resets), t.Nodes())
  {
    t := t0;
    var varQueue, valueQueue := varQueue0, valueQueue0;
    while varQueue != [] || valueQueue != []
      invariant FloodInv(e, resets, t0, t, varQueue, valueQueue)
      decreases Room(e, t), |varQueue| + |valueQueue|
    {
      hide FloodInv, Room;
      if varQueue != [] {
        var reset := varQueue[0] in resets;
        t, varQueue, valueQueue := VisitVar(e, resets, t0, t, varQueue, valueQueue);
        if reset {
          continue;
        }
      }
      if valueQueue != [] {
        t, varQueue, valueQueue := VisitValue(e, resets, t0, t, varQueue, valueQueue);
      }
    }
    DrainedIsLeast(e, resets, t0, t);
  }

  // The context-insensitive computation: exactly what the sources taint.
  method FloodAll(e: DepEdges, varSources: set<nat>, valueSources: set<nat>, resets: set<nat>) returns (t: Taint)
    ensures forall n: Node :: t.Has(n) <==> Tainted(e.Arrows(), Taint(varSources, valueSources).Nodes(), Resets(resets), n)
  {
    var varQueue := ToSeq(varSources);
    var valueQueue := ToSeq(valueSources);
    var t0 := Taint(varSources, valueSources);
    t := Drain(e, resets, t0, varQueue, valueQueue);
    LeastFloodIsTaint(e.Arrows(), t0.Nodes(), Resets(resets), t.Nodes());
    assert forall n: Node :: t.Has(n) <==> n in t.Nodes();
  }
}
