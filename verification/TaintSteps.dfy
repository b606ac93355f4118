// What the context-sensitive computation does to one function: flood it, carry taint into it from
// another one, record its tainted conditions.
module TaintSteps {
  import opened Sequences
  import opened TaintGraph
  import opened TaintFlood

  datatype Program = Program(
    edges: DepEdges,
    varSources: set<nat>,
    valueSources: set<nat>,
    resets: set<nat>,
    varsOf: map<nat, set<nat>>,        // the variables of a function
    valuesOf: map<nat, set<nat>>,      // its values
    home: map<nat, nat>,               // the function an instruction lies in
    callSites: map<nat, seq<nat>>,     // the call sites of a function
    condsOf: map<nat, set<nat>>,       // the conditions a call site depends on
    callees: map<nat, seq<nat>>,       // the call graph
    defined: set<nat>                  // the call graph nodes that stand for a function
  ) {
    function Vars(f: nat): set<nat> {
      if f in varsOf then varsOf[f] else {}
    }

    function Values(f: nat): set<nat> {
      if f in valuesOf then valuesOf[f] else {}
    }

    function Callees(n: nat): seq<nat> {
      if n in callees then callees[n] else []
    }

    function Calls(f: nat): seq<nat> {
      if f in callSites then callSites[f] else []
    }

    function Conds(c: nat): set<nat> {
      if c in condsOf then condsOf[c] else {}
    }

    // The sources that lie in "f".
    function SourcesIn(f: nat): Taint {
      Taint(varSources * Vars(f), set v | v in valueSources && v in home && home[v] == f)
    }

    // The edges between nodes of "f".
    function Local(f: nat): DepEdges {
      DepEdges(Within(edges.valueToValue, Values(f), Values(f)), Within(edges.valueToVar, Values(f), Vars(f)),
               Within(edges.varToValue, Vars(f), Values(f)), Within(edges.varToVar, Vars(f), Vars(f)))
    }

    ghost function Sources(): iset<Node> {
      Taint(varSources, valueSources).Nodes()
    }

    // Tainted without regard to calling contexts.
    ghost predicate Insensitive(n: Node) {
      Tainted(edges.Arrows(), Sources(), Resets(resets), n)
    }

    // Tainted by flow inside "f" from sources in "f".
    ghost predicate LocallyTainted(f: nat, n: Node) {
      Tainted(Local(f).Arrows(), SourcesIn(f).Nodes(), Resets(resets), n)
    }

    // A condition that some call site of "f" depends on.
    ghost predicate IsCondOf(f: nat, v: nat) {
      exists c :: c in Calls(f) && v in Conds(c)
    }
  }

  function Within(m: EdgeMaps, from: set<nat>, to: set<nat>): EdgeMaps {
    EdgeMaps(map s | s in m.children && s in from :: m.children[s] * to,
             map d | d in m.parents && d in to :: m.parents[d] * from)
  }

  lemma LocalArrows(p: Program, f: nat, a: Node, b: Node)
    ensures p.Local(f).Has(a, b) <==>
      p.edges.Has(a, b) && Taint(p.Vars(f), p.Values(f)).Has(a) && Taint(p.Vars(f), p.Values(f)).Has(b)
  {
  }

  // Nothing is tainted that the context-insensitive computation leaves untainted.
  ghost predicate Sound(p: Program, t: Taint) {
    forall n: Node :: t.Has(n) ==> p.Insensitive(n)
  }

  // What flows out of tainted nodes is tainted by the context-insensitive computation.
  lemma InsensitiveStep(p: Program, a: Node, b: Node)
    requires p.Insensitive(a) && p.edges.Has(a, b) && !(a.Var? && a.id in p.resets)
    ensures p.Insensitive(b)
  {
    assert (a, b) in p.edges.Arrows();
  }

  // 1) add the function's sources, 2) queue its tainted nodes, 3) flood inside the function.
  method FloodFunction(p: Program, f: nat, t: Taint) returns (t': Taint)
    requires Sound(p, t)
    ensures Sound(p, t')
    ensures IsLeastFlood(p.Local(f).Arrows(), Taint(t.vars + p.SourcesIn(f).vars, t.values + p.SourcesIn(f).values).Nodes(),
                         Resets(p.resets), t'.Nodes())
  {
    var local := p.SourcesIn(f);
    var t0 := Taint(t.vars + local.vars, t.values + local.values);
    var varQueue := ToSeq(p.Vars(f) * t0.vars);
    var valueQueue := ToSeq(p.Values(f) * t0.values);
    LocalQueuesSuffice(p, f, t0, varQueue, valueQueue);
    t' := Drain(p.Local(f), p.resets, t0, varQueue, valueQueue);
    FloodIsSound(p, f, t, t0, t');
  }

  // Nodes outside the function have no edge to follow.
  lemma LocalQueuesSuffice(p: Program, f: nat, t0: Taint, varQueue: seq<nat>, valueQueue: seq<nat>)
    requires forall x :: x in varQueue <==> x in p.Vars(f) * t0.vars
    requires forall x :: x in valueQueue <==> x in p.Values(f) * t0.values
    ensures FloodInv(p.Local(f), p.resets, t0, t0, varQueue, valueQueue)
  {
    forall n: Node | t0.Has(n) && !Queued(varQueue, valueQueue, n) ensures Settled(p.Local(f), p.resets, t0, n) {
      match n {
        case Value(v) => assert v !in p.Values(f);
        case Var(v) => assert v !in p.Vars(f);
      }
    }
  }

  lemma FloodIsSound(p: Program, f: nat, t: Taint, t0: Taint, t': Taint)
    requires Sound(p, t)
    requires t0 == Taint(t.vars + p.SourcesIn(f).vars, t.values + p.SourcesIn(f).values)
    requires IsLeastFlood(p.Local(f).Arrows(), t0.Nodes(), Resets(p.resets), t'.Nodes())
    ensures Sound(p, t')
  {
    var y := iset n: Node | p.Insensitive(n);
    forall n: Node | n in t0.Nodes() ensures n in y {
      if !t.Has(n) {
        assert n in p.Sources();
      }
    }
    forall a: Node, b: Node | (a, b) in p.Local(f).Arrows() && a in y && a !in Resets(p.resets) ensures b in y {
      LocalArrows(p, f, a, b);
      InsensitiveStep(p, a, b);
    }
    assert Floods(p.Local(f).Arrows(), t0.Nodes(), Resets(p.resets), y);
    forall n: Node | t'.Has(n) ensures p.Insensitive(n) {
      assert n in t'.Nodes();
      assert n in y;
    }
  }

  // Some tainted variable of "vars", a reset node or not, flows to "n".
  ghost predicate FromVar(p: Program, vars: set<nat>, t: Taint, reset: bool, n: Node) {
    exists s: nat :: s in vars && s in t.vars && (s in p.resets <==> reset) && p.edges.Has(Var(s), n)
  }

  ghost predicate FromValue(p: Program, values: set<nat>, t: Taint, n: Node) {
    exists s: nat :: s in values && s in t.values && p.edges.Has(Value(s), n)
  }

  predicate NodeOf(p: Program, f: nat, n: Node) {
    Taint(p.Vars(f), p.Values(f)).Has(n)
  }

  // What the nodes "vars" and "values" of the caller (or callee) have done to those of "to": taint
  // came in from tainted nodes, it went where only tainted reset nodes flow in, and nothing else
  // changed. Where both kinds of variables flow in, the last one decides.
  ghost predicate Carried(p: Program, to: nat, vars: set<nat>, values: set<nat>, t: Taint, t': Taint) {
    forall n: Node :: NodeOf(p, to, n) ==>
      && (FromValue(p, values, t, n) ==> t'.Has(n))
      && (FromVar(p, vars, t, false, n) && !FromVar(p, vars, t, true, n) ==> t'.Has(n))
      && (!FromVar(p, vars, t, false, n) && !FromValue(p, values, t, n) ==>
            (t'.Has(n) <==> t.Has(n) && !FromVar(p, vars, t, true, n)))
  }

  ghost predicate SameOutside(p: Program, to: nat, t: Taint, t': Taint) {
    forall n: Node :: !NodeOf(p, to, n) ==> (t'.Has(n) <==> t.Has(n))
  }

  ghost predicate Disjoint(p: Program, f: nat, g: nat) {
    p.Vars(f) !! p.Vars(g) && p.Values(f) !! p.Values(g)
  }

  // One node of the other function: its children in "to" are tainted, or lose their taint if it is
  // a reset node.
  ghost function CrossOne(p: Program, to: nat, s: Node, t: Taint): Taint {
    match s
    case Var(v) =>
      var vars, values := p.edges.varToVar.Children(v) * p.Vars(to), p.edges.varToValue.Children(v) * p.Values(to);
      if v !in t.vars then t
      else if v in p.resets then Taint(t.vars - vars, t.values - values)
      else Taint(t.vars + vars, t.values + values)
    case Value(v) =>
      var vars, values := p.edges.valueToVar.Children(v) * p.Vars(to), p.edges.valueToValue.Children(v) * p.Values(to);
      if v !in t.values then t else Taint(t.vars + vars, t.values + values)
  }

  ghost function CrossAll(p: Program, to: nat, order: seq<Node>, t: Taint): Taint {
    if order == [] then t else
      CrossOne(p, to, order[|order| - 1], CrossAll(p, to, order[..|order| - 1], t))
  }

  // Each node of the function once.
  ghost predicate IsOrderOf(p: Program, f: nat, order: seq<Node>) {
    && (forall n :: n in order <==> NodeOf(p, f, n))
    && (forall i, j :: 0 <= i < j < |order| ==> order[i] != order[j])
  }

  lemma CrossNext(p: Program, to: nat, order: seq<Node>, s: Node, t: Taint)
    ensures CrossAll(p, to, order + [s], t) == CrossOne(p, to, s, CrossAll(p, to, order, t))
  {
    assert (order + [s])[..|order + [s]| - 1] == order;
  }

  // Taint crosses from the nodes of "from" to their children in "to", node by node in some order,
  // the variables first.
  method FloodFromFunction(p: Program, to: nat, from: nat, t: Taint) returns (t': Taint, ghost order: seq<Node>)
    requires Sound(p, t)
    ensures Sound(p, t') && SameOutside(p, to, t, t')
    ensures IsOrderOf(p, from, order) && t' == CrossAll(p, to, order, t)
    ensures Disjoint(p, to, from) ==> Carried(p, to, p.Vars(from), p.Values(from), t, t')
  {
    assert Visited([], {}, {});
    hide Sound, Carried, CrossAll, Visited;
    t', order := t, [];
    var vars := p.Vars(from);
    NothingCarried(p, to, t);
    NothingCrossed(p, to, t);
    assert vars - vars == {};
    while vars != {}
      invariant vars <= p.Vars(from) && Sound(p, t') && SameOutside(p, to, t, t')
      invariant Disjoint(p, to, from) ==> Carried(p, to, p.Vars(from) - vars, {}, t, t')
      invariant Visited(order, p.Vars(from) - vars, {}) && t' == CrossAll(p, to, order, t)
    {
      var s :| s in vars;
      ghost var done, before := p.Vars(from) - vars, t';
      vars := vars - {s};
      assert p.Vars(from) - vars == done + {s};
      assert Disjoint(p, to, from) ==> (t'.Has(Var(s)) <==> t.Has(Var(s)));
      if s in t'.vars {
        var intoVars := p.edges.varToVar.Children(s) * p.Vars(to);
        var intoValues := p.edges.varToValue.Children(s) * p.Values(to);
        if s in p.resets {
          t' := Without(p, t', intoVars, intoValues);
        } else {
          t' := With(p, t', Var(s), intoVars, intoValues);
        }
      }
      CrossNext(p, to, order, Var(s), t);
      VisitedVar(order, done, s);
      order := order + [Var(s)];
      if Disjoint(p, to, from) {
        VarCarried(p, to, done, s, t, before, t');
      }
    }
    assert p.Vars(from) - {} == p.Vars(from);
    var values := p.Values(from);
    assert values - values == {};
    while values != {}
      invariant values <= p.Values(from) && Sound(p, t') && SameOutside(p, to, t, t')
      invariant Disjoint(p, to, from) ==> Carried(p, to, p.Vars(from), p.Values(from) - values, t, t')
      invariant Visited(order, p.Vars(from), p.Values(from) - values) && t' == CrossAll(p, to, order, t)
    {
      var s :| s in values;
      ghost var done, before := p.Values(from) - values, t';
      values := values - {s};
      assert p.Values(from) - values == done + {s};
      assert Disjoint(p, to, from) ==> (t'.Has(Value(s)) <==> t.Has(Value(s)));
      if s in t'.values {
        t' := With(p, t', Value(s), p.edges.valueToVar.Children(s) * p.Vars(to), p.edges.valueToValue.Children(s) * p.Values(to));
      }
      CrossNext(p, to, order, Value(s), t);
      VisitedValue(order, p.Vars(from), done, s);
      order := order + [Value(s)];
      if Disjoint(p, to, from) {
        ValueCarried(p, to, p.Vars(from), done, s, t, before, t');
      }
    }
    assert p.Values(from) - {} == p.Values(from);
    AllVisited(p, from, order);
  }

  lemma AllVisited(p: Program, f: nat, order: seq<Node>)
    requires Visited(order, p.Vars(f), p.Values(f))
    ensures IsOrderOf(p, f, order)
  {
  }

  lemma NewAtEnd(order: seq<Node>, n: Node)
    requires n !in order && forall i, j :: 0 <= i < j < |order| ==> order[i] != order[j]
    ensures forall i, j :: 0 <= i < j < |order + [n]| ==> (order + [n])[i] != (order + [n])[j]
    ensures forall m :: m in order + [n] <==> m in order || m == n
  {
    forall i, j | 0 <= i < j < |order + [n]| ensures (order + [n])[i] != (order + [n])[j] {
      assert (order + [n])[i] == order[i] && order[i] in order;
    }
  }

  lemma VisitedVar(order: seq<Node>, vars: set<nat>, s: nat)
    requires Visited(order, vars, {}) && s !in vars
    ensures Visited(order + [Var(s)], vars + {s}, {})
  {
    assert !Taint(vars, {}).Has(Var(s));
    NewAtEnd(order, Var(s));
    assert forall n: Node :: Taint(vars + {s}, {}).Has(n) <==> Taint(vars, {}).Has(n) || n == Var(s);
  }

  lemma VisitedValue(order: seq<Node>, vars: set<nat>, values: set<nat>, s: nat)
    requires Visited(order, vars, values) && s !in values
    ensures Visited(order + [Value(s)], vars, values + {s})
  {
    assert !Taint(vars, values).Has(Value(s));
    NewAtEnd(order, Value(s));
    assert forall n: Node :: Taint(vars, values + {s}).Has(n) <==> Taint(vars, values).Has(n) || n == Value(s);
  }

  lemma NothingCrossed(p: Program, to: nat, t: Taint)
    ensures CrossAll(p, to, [], t) == t
  {
  }

  ghost predicate Visited(order: seq<Node>, vars: set<nat>, values: set<nat>) {
    && (forall n :: n in order <==> Taint(vars, values).Has(n))
    && (forall i, j :: 0 <= i < j < |order| ==> order[i] != order[j])
  }

  lemma NothingCarried(p: Program, to: nat, t: Taint)
    ensures Carried(p, to, {}, {}, t, t)
  {
  }

  lemma VarCarried(p: Program, to: nat, done: set<nat>, s: nat, t: Taint, before: Taint, t': Taint)
    requires Carried(p, to, done, {}, t, before)
    requires forall n: Node :: NodeOf(p, to, n) && !(s in t.vars && p.edges.Has(Var(s), n)) ==> (t'.Has(n) <==> before.Has(n))
    requires forall n: Node :: NodeOf(p, to, n) && s in t.vars && p.edges.Has(Var(s), n) ==> (t'.Has(n) <==> s !in p.resets)
    ensures Carried(p, to, done + {s}, {}, t, t')
  {
    forall n: Node, reset: bool
      ensures FromVar(p, done + {s}, t, reset, n) <==>
        FromVar(p, done, t, reset, n) || (s in t.vars && (s in p.resets <==> reset) && p.edges.Has(Var(s), n))
    {
    }
  }

  lemma ValueCarried(p: Program, to: nat, vars: set<nat>, done: set<nat>, s: nat, t: Taint, before: Taint, t': Taint)
    requires Carried(p, to, vars, done, t, before)
    requires forall n: Node :: NodeOf(p, to, n) ==> (t'.Has(n) <==> before.Has(n) || (s in t.values && p.edges.Has(Value(s), n)))
    ensures Carried(p, to, vars, done + {s}, t, t')
  {
    forall n: Node
      ensures FromValue(p, done + {s}, t, n) <==> FromValue(p, done, t, n) || (s in t.values && p.edges.Has(Value(s), n))
    {
    }
  }

  function Without(ghost p: Program, t: Taint, vars: set<nat>, values: set<nat>): (t': Taint)
    ensures Sound(p, t) ==> Sound(p, t')
    ensures t' == Taint(t.vars - vars, t.values - values)
    ensures forall n: Node :: t'.Has(n) <==> t.Has(n) && !Taint(vars, values).Has(n)
  {
    var t' := Taint(t.vars - vars, t.values - values);
    assert forall n: Node :: t'.Has(n) ==> t.Has(n);
    t'
  }

  function With(ghost p: Program, t: Taint, ghost s: Node, vars: set<nat>, values: set<nat>): (t': Taint)
    requires Sound(p, t) && t.Has(s) && !(s.Var? && s.id in p.resets)
    requires forall x :: x in vars ==> p.edges.Has(s, Var(x))
    requires forall x :: x in values ==> p.edges.Has(s, Value(x))
    ensures Sound(p, t')
    ensures t' == Taint(t.vars + vars, t.values + values)
    ensures forall n: Node :: t'.Has(n) <==> t.Has(n) || Taint(vars, values).Has(n)
  {
    var t' := Taint(t.vars + vars, t.values + values);
    assert Sound(p, t') by {
      forall n: Node | t'.Has(n) ensures p.Insensitive(n) {
        if !t.Has(n) {
          InsensitiveStep(p, s, n);
        }
      }
    }
    t'
  }

  /* Which functions carry taint. */

  // The sources of a function are nodes of it.
  ghost predicate SourcesAreNodes(p: Program) {
    forall f :: p.SourcesIn(f).values <= p.Values(f)
  }

  // Besides what was tainted at the start, only nodes of the given functions are.
  ghost predicate CarriedBy(p: Program, fs: set<nat>, t0: Taint, t: Taint) {
    forall n: Node :: t.Has(n) ==> t0.Has(n) || HasOwner(p, fs, n)
  }

  ghost predicate HasOwner(p: Program, fs: set<nat>, n: Node) {
    exists f :: f in fs && NodeOf(p, f, n)
  }

  lemma FloodFunctionCarried(p: Program, f: nat, fs: set<nat>, t0: Taint, t: Taint, t': Taint)
    requires SourcesAreNodes(p) && CarriedBy(p, fs, t0, t) && f in fs
    requires IsLeastFlood(p.Local(f).Arrows(), Taint(t.vars + p.SourcesIn(f).vars, t.values + p.SourcesIn(f).values).Nodes(),
                          Resets(p.resets), t'.Nodes())
    ensures CarriedBy(p, fs, t0, t')
  {
    var y := iset n: Node | t0.Has(n) || HasOwner(p, fs, n);
    var start := Taint(t.vars + p.SourcesIn(f).vars, t.values + p.SourcesIn(f).values);
    forall n: Node | start.Has(n) ensures n in y {
      assert t.Has(n) || NodeOf(p, f, n);
    }
    forall a: Node, b: Node | (a, b) in p.Local(f).Arrows() && a in y && a !in Resets(p.resets) ensures b in y {
      LocalArrows(p, f, a, b);
      assert NodeOf(p, f, b);
    }
    assert Floods(p.Local(f).Arrows(), start.Nodes(), Resets(p.resets), y);
    forall n: Node | t'.Has(n) ensures t0.Has(n) || HasOwner(p, fs, n) {
      assert n in t'.Nodes();
      assert n in y;
    }
  }

  lemma FloodFromCarried(p: Program, to: nat, fs: set<nat>, t0: Taint, t: Taint, t': Taint)
    requires CarriedBy(p, fs, t0, t) && to in fs && SameOutside(p, to, t, t')
    ensures CarriedBy(p, fs, t0, t')
  {
  }

  // Forgetting a function that is not needed any more.
  lemma ForgetCarried(p: Program, f: nat, fs: set<nat>, t0: Taint, t: Taint, t': Taint)
    requires CarriedBy(p, fs + {f}, t0, t)
    requires forall n: Node :: t'.Has(n) <==> t.Has(n) && !NodeOf(p, f, n)
    ensures CarriedBy(p, fs, t0, t')
  {
  }

  lemma MoreCarry(p: Program, fs: set<nat>, gs: set<nat>, t0: Taint, t: Taint)
    requires CarriedBy(p, fs, t0, t) && fs <= gs
    ensures CarriedBy(p, gs, t0, t)
  {
  }

  // The functions on the stack.
  ghost function OnStack(stack: seq<nat>): set<nat> {
    set f | f in stack
  }

  // The tainted conditions of the function's call sites.
  method RecordConditions(p: Program, f: nat, t: Taint, conditions: set<nat>) returns (conditions': set<nat>)
    ensures forall v :: v in conditions' <==> v in conditions || (p.IsCondOf(f, v) && v in t.values)
  {
    conditions' := conditions;
    var calls := p.Calls(f);
    for i := 0 to |calls|
      invariant forall v :: v in conditions' <==>
        v in conditions || (v in t.values && exists j :: 0 <= j < i && v in p.Conds(calls[j]))
    {
      conditions' := conditions' + (p.Conds(calls[i]) * t.values);
    }
  }
}
