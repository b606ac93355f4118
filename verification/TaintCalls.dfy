// Taint across calls: what a function passes on to another one, and when the walk has recorded it.
module TaintCalls {
  import opened TaintGraph
  import opened TaintFlood
  import opened TaintSteps

  // "f" has a node that its own sources taint and that passes taint to "n" in "g"; no reset node of
  // "f" flows to "n".
  ghost predicate Passes(p: Program, f: nat, g: nat, n: Node) {
    && NodeOf(p, g, n)
    && (exists m: Node :: NodeOf(p, f, m) && p.LocallyTainted(f, m) && !(m.Var? && m.id in p.resets) && p.edges.Has(m, n))
    && (forall r: nat :: r in p.Vars(f) && r in p.resets ==> !p.edges.Has(Var(r), n))
  }

  ghost function Passed(p: Program, f: nat, g: nat): iset<Node> {
    iset n: Node | Passes(p, f, g, n)
  }

  // Tainted inside "g" by its own sources and by what "f" passes on.
  ghost predicate CrossTainted(p: Program, f: nat, g: nat, n: Node) {
    Tainted(p.Local(g).Arrows(), p.SourcesIn(g).Nodes() + Passed(p, f, g), Resets(p.resets), n)
  }

  // The conditions of "g" that are tainted in that way have been recorded.
  ghost predicate CrossRecorded(p: Program, f: nat, g: nat, conditions: set<nat>) {
    forall v :: p.IsCondOf(g, v) && CrossTainted(p, f, g, Value(v)) ==> v in conditions
  }

  // All that the function's own sources taint in it is tainted.
  ghost predicate HoldsLocal(p: Program, f: nat, t: Taint) {
    forall m: Node :: NodeOf(p, f, m) && p.LocallyTainted(f, m) ==> t.Has(m)
  }

  ghost predicate AllDisjoint(p: Program) {
    forall f, g {:trigger Disjoint(p, f, g)} :: f != g ==> Disjoint(p, f, g)
  }

  // Flooding a function leaves it with all its own sources taint.
  lemma FloodHoldsLocal(p: Program, f: nat, t: Taint, t': Taint)
    requires IsLeastFlood(p.Local(f).Arrows(), Taint(t.vars + p.SourcesIn(f).vars, t.values + p.SourcesIn(f).values).Nodes(),
                          Resets(p.resets), t'.Nodes())
    ensures HoldsLocal(p, f, t')
  {
    var t0 := Taint(t.vars + p.SourcesIn(f).vars, t.values + p.SourcesIn(f).values);
    assert p.SourcesIn(f).Nodes() <= t0.Nodes();
    assert Floods(p.Local(f).Arrows(), p.SourcesIn(f).Nodes(), Resets(p.resets), t'.Nodes());
    forall m: Node | p.LocallyTainted(f, m) ensures t'.Has(m) {
      assert m in t'.Nodes();
    }
  }

  // Forgetting another function does not touch it.
  lemma ForgetHoldsLocal(p: Program, f: nat, g: nat, t: Taint, t': Taint)
    requires HoldsLocal(p, f, t) && Disjoint(p, f, g)
    requires t' == Taint(t.vars - p.Vars(g), t.values - p.Values(g))
    ensures HoldsLocal(p, f, t')
  {
    hide Program.LocallyTainted;
    forall m: Node | NodeOf(p, f, m) && p.LocallyTainted(f, m) ensures t'.Has(m) {
      assert !NodeOf(p, g, m);
    }
  }

  // What "f" passes on is tainted once taint has crossed from it.
  lemma PassedIsCarried(p: Program, f: nat, g: nat, t: Taint, t': Taint, n: Node)
    requires HoldsLocal(p, f, t) && Carried(p, g, p.Vars(f), p.Values(f), t, t') && Passes(p, f, g, n)
    ensures t'.Has(n)
  {
    hide Program.LocallyTainted;
    var m :| NodeOf(p, f, m) && p.LocallyTainted(f, m) && !(m.Var? && m.id in p.resets) && p.edges.Has(m, n);
    assert t.Has(m);
    match m {
      case Value(v) => assert FromValue(p, p.Values(f), t, n);
      case Var(v) => assert FromVar(p, p.Vars(f), t, false, n) && !FromVar(p, p.Vars(f), t, true, n);
    }
  }

  // Then flooding the function and recording its conditions records all of it.
  lemma CrossingIsRecorded(p: Program, f: nat, g: nat, t: Taint, entered: Taint, flooded: Taint, conditions: set<nat>)
    requires HoldsLocal(p, f, t) && Carried(p, g, p.Vars(f), p.Values(f), t, entered)
    requires IsLeastFlood(p.Local(g).Arrows(), Taint(entered.vars + p.SourcesIn(g).vars, entered.values + p.SourcesIn(g).values).Nodes(),
                          Resets(p.resets), flooded.Nodes())
    requires forall v :: p.IsCondOf(g, v) && v in flooded.values ==> v in conditions
    ensures CrossRecorded(p, f, g, conditions)
  {
    var start := Taint(entered.vars + p.SourcesIn(g).vars, entered.values + p.SourcesIn(g).values);
    forall n: Node | n in p.SourcesIn(g).Nodes() + Passed(p, f, g) ensures n in start.Nodes() {
      if Passes(p, f, g, n) {
        PassedIsCarried(p, f, g, t, entered, n);
      }
    }
    hide Carried, HoldsLocal, Passes;
    var sources := p.SourcesIn(g).Nodes() + Passed(p, f, g);
    assert Floods(p.Local(g).Arrows(), sources, Resets(p.resets), flooded.Nodes());
    forall v | p.IsCondOf(g, v) && CrossTainted(p, f, g, Value(v)) ensures v in conditions {
      assert Value(v) in flooded.Nodes();
    }
  }

  lemma MoreConditions(p: Program, f: nat, g: nat, conditions: set<nat>, conditions': set<nat>)
    requires CrossRecorded(p, f, g, conditions) && conditions <= conditions'
    ensures CrossRecorded(p, f, g, conditions')
  {
  }

  /* Where the walk stands. */

  function VisitedFrom(visited: map<nat, set<nat>>, n: nat): set<nat> {
    if n in visited then visited[n] else {}
  }

  // Neither function calls itself, and both are functions of their own.
  predicate Plain(p: Program, f: nat, g: nat) {
    f != g && f !in p.Callees(f) && g !in p.Callees(g) && g in p.defined
  }

  // "g" stands right above "f".
  ghost predicate Above(stack: seq<nat>, f: nat, g: nat) {
    exists i, j :: 0 <= i < j < |stack| && j == i + 1 && stack[i] == f && stack[j] == g
  }

  // For each call taken: what the caller passes on has been recorded, unless the callee is to be
  // visited next; and so has what the callee passes back, unless it has not returned or the caller
  // is to be visited next.
  ghost predicate Crossed(p: Program, visited: map<nat, set<nat>>, stack: seq<nat>, hasPrev: bool, goingDown: bool, prev: nat,
                          conditions: set<nat>) {
    forall f, g :: g in VisitedFrom(visited, f) && Plain(p, f, g) ==>
      CrossedAt(p, f, g, stack, hasPrev, goingDown, prev, conditions)
  }

  ghost predicate CrossedAt(p: Program, f: nat, g: nat, stack: seq<nat>, hasPrev: bool, goingDown: bool, prev: nat, conditions: set<nat>) {
    && (CrossRecorded(p, f, g, conditions) || (hasPrev && goingDown && prev == f && stack != [] && stack[|stack| - 1] == g))
    && (CrossRecorded(p, g, f, conditions) || Above(stack, f, g)
        || (hasPrev && !goingDown && prev == g && stack != [] && stack[|stack| - 1] == f))
  }

  // A popped function leaves the one below on top; what stood above what stays.
  lemma AboveAfterPop(stack: seq<nat>, f: nat, g: nat)
    requires stack != [] && Above(stack, f, g)
    ensures Above(stack[..|stack| - 1], f, g) || (|stack| >= 2 && stack[|stack| - 2] == f && stack[|stack| - 1] == g)
  {
    var i, j :| 0 <= i < j < |stack| && j == i + 1 && stack[i] == f && stack[j] == g;
    if j < |stack| - 1 {
      var s := stack[..|stack| - 1];
      assert s[i] == f && s[j] == g;
    }
  }

  lemma AboveAfterPush(stack: seq<nat>, f: nat, g: nat, c: nat)
    ensures Above(stack, f, g) ==> Above(stack + [c], f, g)
    ensures stack != [] && stack[|stack| - 1] == f && c == g ==> Above(stack + [c], f, g)
  {
    var s := stack + [c];
    if i, j :| 0 <= i < j < |stack| && j == i + 1 && stack[i] == f && stack[j] == g {
      assert s[i] == f && s[j] == g;
    }
    if stack != [] && stack[|stack| - 1] == f && c == g {
      assert s[|stack| - 1] == f && s[|stack|] == g;
    }
  }

  // One round keeps this: the function on top has taken over from the one before, its next callee is
  // pushed, or it leaves the stack.
  lemma RoundCrossesAt(p: Program, f: nat, g: nat, stack: seq<nat>, hasPrev: bool, goingDown: bool, prev: nat, conditions: set<nat>,
                       n: nat, found: bool, pushed: bool, callee: nat, stack': seq<nat>, conditions': set<nat>)
    requires stack != [] && n == stack[|stack| - 1] && conditions <= conditions'
    requires Plain(p, f, g)
    requires hasPrev && prev != n && prev !in p.Callees(prev) ==> CrossRecorded(p, prev, n, conditions')
    requires pushed ==> found
    requires stack' == if pushed then stack + [callee] else if found then stack else stack[..|stack| - 1]
    requires CrossedAt(p, f, g, stack, hasPrev, goingDown, prev, conditions) || (f == n && pushed && g == callee)
    ensures CrossedAt(p, f, g, stack', true, found, n, conditions')
  {
    hide CrossRecorded;
    if CrossRecorded(p, f, g, conditions) {
      MoreConditions(p, f, g, conditions, conditions');
    }
    if CrossRecorded(p, g, f, conditions) {
      MoreConditions(p, g, f, conditions, conditions');
    }
    hide Above;
    if pushed {
      AboveAfterPush(stack, f, g, callee);
    } else if !found && Above(stack, f, g) {
      AboveAfterPop(stack, f, g);
    }
  }
}
