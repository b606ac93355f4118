// Whole runs of the phi elimination pass.
module PhiRuns {
  import opened Sequences
  import opened TaintGraph
  import opened PhiRewrite
  import opened PhiElimination

  datatype Snapshot = Snapshot(edges: DepEdges, nodes: set<nat>, opsVar: map<nat, seq<nat>>)

  // "t" is "s" after the phi was eliminated in favour of "kept".
  ghost predicate Eliminates(preds: map<nat, set<nat>>, s: Snapshot, t: Snapshot, phi: nat, kept: nat) {
    && WellFormed(s.edges, s.nodes, s.opsVar, preds)
    && phi in s.opsVar && phi in s.nodes
    && AdjacentEquivalent(s.edges, s.opsVar.Keys, s.opsVar[phi])
    && kept in Members(s.opsVar[phi])
    && t.edges.Arrows() == Rewired(s.edges.Arrows(), phi, Members(s.opsVar[phi]), kept)
    && t.nodes == s.nodes - (Members(s.opsVar[phi]) - {kept}) - {phi}
    && t.opsVar.Keys == s.opsVar.Keys
    && (forall p :: p in t.opsVar && p != phi ==>
          t.opsVar[p] == OpsAfter(s.opsVar[p], (Var(phi), Var(p)) in s.edges.Arrows(), phi, kept))
  }

  // The states of a run and, for each step, the phi and the operand kept for it.
  ghost predicate IsRun(preds: map<nat, set<nat>>, states: seq<Snapshot>, steps: seq<(nat, nat)>) {
    && |states| == |steps| + 1
    && (forall i, j :: 0 <= i < j < |states| && j == i + 1 ==>
          Eliminates(preds, states[i], states[j], steps[i].0, steps[i].1))
  }

  ghost predicate Alive(nodes: set<nat>, n: Node) {
    n.Value? || n.id in nodes
  }

  // The phis a run has eliminated.
  ghost function Eliminated(steps: seq<(nat, nat)>): set<nat> {
    set i | 0 <= i < |steps| :: steps[i].0
  }

  lemma RunTail(preds: map<nat, set<nat>>, states: seq<Snapshot>, steps: seq<(nat, nat)>)
    requires IsRun(preds, states, steps) && steps != []
    ensures IsRun(preds, states[1..], steps[1..])
    ensures Eliminated(steps) == Eliminated(steps[1..]) + {steps[0].0}
    ensures Eliminates(preds, states[0], states[1], steps[0].0, steps[0].1)
  {
    hide Eliminates;
    assert forall i :: 0 <= i < |steps| - 1 ==> steps[1..][i] == steps[i + 1];
    forall p | p in Eliminated(steps) ensures p in Eliminated(steps[1..]) + {steps[0].0} {
      var i :| 0 <= i < |steps| && steps[i].0 == p;
      if i > 0 {
        assert steps[1..][i - 1].0 == p;
      }
    }
  }

  lemma StepShrinks(preds: map<nat, set<nat>>, s: Snapshot, t: Snapshot, phi: nat, kept: nat)
    requires Eliminates(preds, s, t, phi, kept)
    ensures t.nodes <= s.nodes && phi !in t.nodes
    ensures t.opsVar.Keys == s.opsVar.Keys && phi in s.opsVar
  {
  }

  lemma ShrinkTogether(a: set<nat>, b: set<nat>, c: set<nat>, gone: set<nat>, phi: nat)
    requires b <= a && c <= b && phi !in b && gone !! c
    ensures c <= a && (gone + {phi}) !! c
  {
  }

  // A run never brings a variable back, and eliminates phis only.
  lemma {:induction false} RunShrinks(preds: map<nat, set<nat>>, states: seq<Snapshot>, steps: seq<(nat, nat)>)
    requires IsRun(preds, states, steps)
    ensures states[|steps|].nodes <= states[0].nodes
    ensures states[|steps|].opsVar.Keys == states[0].opsVar.Keys
    ensures Eliminated(steps) <= states[0].opsVar.Keys && Eliminated(steps) !! states[|steps|].nodes
    decreases |steps|
  {
    if steps != [] {
      RunTail(preds, states, steps);
      hide Eliminates, Eliminated, IsRun;
      RunShrinks(preds, states[1..], steps[1..]);
      StepShrinks(preds, states[0], states[1], steps[0].0, steps[0].1);
      assert states[1..][|steps| - 1] == states[|steps|] && states[1..][0] == states[1];
      ShrinkTogether(states[0].nodes, states[1].nodes, states[|steps|].nodes, Eliminated(steps[1..]), steps[0].0);
    }
  }

  /* What a run keeps: flow between the nodes that are left, and their taint. */

  // The exact condition on one elimination, which a caller can look up before it.
  ghost predicate Harmless(s: Snapshot, phi: nat, kept: nat, sources: iset<Node>, resets: iset<Node>) {
    && phi in s.opsVar
    && KeptIsFit(phi, Members(s.opsVar[phi]), kept, sources, resets)
    && (Var(phi) in resets ==> Var(kept) in resets)
  }

  // One step, for the nodes that are left.
  lemma StepPreserves(preds: map<nat, set<nat>>, s: Snapshot, t: Snapshot, phi: nat, kept: nat, others: set<nat>,
                      sources: iset<Node>, resets: iset<Node>, n: Node)
    requires Eliminates(preds, s, t, phi, kept) && others <= s.opsVar.Keys && Alive(t.nodes, n)
    requires Harmless(s, phi, kept, sources, resets)
    ensures Tainted(t.edges.Arrows(), sources, resets, n) ==> Tainted(s.edges.Arrows(), sources, resets, n)
    ensures Tainted(Cut(s.edges.Arrows(), others + {phi}), sources, resets, n) ==>
              Tainted(Cut(t.edges.Arrows(), others), sources, resets, n)
  {
    PassedTest(s.edges, s.nodes, s.opsVar, preds, phi);
    hide WellFormed, AdjacentEquivalent, Eliminable, Rewired, Cut, Tainted, DepEdges.Arrows, OpsAfter, KeptIsFit;
    var g, ops := s.edges.Arrows(), Members(s.opsVar[phi]);
    assert !Gone(phi, ops, kept, n);
    RewiringAddsNoTaint(g, phi, ops, kept, sources, resets);
    CutFirst(g, phi, ops, kept, others);
    FitKeepsTaint(Cut(g, others), phi, ops, kept, sources, resets);
  }

  // Along the whole run: no flow between two nodes that are left is added, and none is lost but
  // through the predicates of eliminated phis.
  lemma {:induction false} RunPreservesFlow(preds: map<nat, set<nat>>, states: seq<Snapshot>, steps: seq<(nat, nat)>,
                                            others: set<nat>, a: Node, b: Node)
    requires IsRun(preds, states, steps) && others <= states[0].opsVar.Keys
    requires Alive(states[|steps|].nodes, a) && Alive(states[|steps|].nodes, b)
    ensures FlowsTo(states[|steps|].edges.Arrows(), a, b) ==> FlowsTo(states[0].edges.Arrows(), a, b)
    ensures FlowsTo(Cut(states[0].edges.Arrows(), others + Eliminated(steps)), a, b) ==>
              FlowsTo(Cut(states[|steps|].edges.Arrows(), others), a, b)
    decreases |steps|
  {
    if steps == [] {
      assert others + Eliminated(steps) == others;
    } else {
      RunTail(preds, states, steps);
      RunShrinks(preds, states[1..], steps[1..]);
      RunPreservesFlow(preds, states[1..], steps[1..], others, a, b);
      var s, t, phi, kept := states[0], states[1], steps[0].0, steps[0].1;
      assert states[1..][|steps| - 1] == states[|steps|];
      var gone := Eliminated(steps[1..]);
      assert others + Eliminated(steps) == others + gone + {phi};
      FlowStep(preds, s, t, phi, kept, others + gone, a, b);
    }
  }

  lemma FlowStep(preds: map<nat, set<nat>>, s: Snapshot, t: Snapshot, phi: nat, kept: nat, others: set<nat>, a: Node, b: Node)
    requires Eliminates(preds, s, t, phi, kept) && others <= s.opsVar.Keys && Alive(t.nodes, a) && Alive(t.nodes, b)
    ensures FlowsTo(t.edges.Arrows(), a, b) ==> FlowsTo(s.edges.Arrows(), a, b)
    ensures FlowsTo(Cut(s.edges.Arrows(), others + {phi}), a, b) ==> FlowsTo(Cut(t.edges.Arrows(), others), a, b)
  {
    hide WellFormed, AdjacentEquivalent, Eliminable, Rewired, Cut, Tainted, DepEdges.Arrows, OpsAfter;
    assert forall m: nat :: (m in Members(s.opsVar[phi]) || m == phi) && a == Var(m) ==> m == kept;
    StepPreserves(preds, s, t, phi, kept, others, iset{a}, iset{}, b);
  }

  // Along the whole run, if each elimination meets the condition: no node that is left becomes
  // tainted, and none stops being tainted but for what came in through the predicates of eliminated
  // phis.
  lemma {:induction false} RunPreservesTaint(preds: map<nat, set<nat>>, states: seq<Snapshot>, steps: seq<(nat, nat)>,
                                             others: set<nat>, sources: iset<Node>, resets: iset<Node>, n: Node)
    requires IsRun(preds, states, steps) && others <= states[0].opsVar.Keys && Alive(states[|steps|].nodes, n)
    requires forall i :: 0 <= i < |steps| ==> Harmless(states[i], steps[i].0, steps[i].1, sources, resets)
    ensures Tainted(states[|steps|].edges.Arrows(), sources, resets, n) ==> Tainted(states[0].edges.Arrows(), sources, resets, n)
    ensures Tainted(Cut(states[0].edges.Arrows(), others + Eliminated(steps)), sources, resets, n) ==>
              Tainted(Cut(states[|steps|].edges.Arrows(), others), sources, resets, n)
    decreases |steps|
  {
    hide Tainted, Harmless;
    if steps == [] {
      assert others + Eliminated(steps) == others;
    } else {
      RunTail(preds, states, steps);
      RunShrinks(preds, states[1..], steps[1..]);
      var s, t, phi, kept := states[0], states[1], steps[0].0, steps[0].1;
      RunPreservesTaint(preds, states[1..], steps[1..], others, sources, resets, n);
      assert states[1..][|steps| - 1] == states[|steps|];
      var gone := Eliminated(steps[1..]);
      assert others + Eliminated(steps) == others + gone + {phi};
      StepPreserves(preds, s, t, phi, kept, others + gone, sources, resets, n);
    }
  }

  /* A condition on the initial graph that every elimination inherits. */

  datatype Label = Source | Reset | Plain

  ghost function OwnLabel(sources: iset<Node>, resets: iset<Node>, v: nat): Label {
    if Var(v) in resets then Reset else if Var(v) in sources then Source else Plain
  }

  ghost function LabelOf(opsVar: map<nat, seq<nat>>, labels: map<nat, Label>, sources: iset<Node>, resets: iset<Node>, v: nat): Label {
    if v in opsVar && v in labels then labels[v] else OwnLabel(sources, resets, v)
  }

  // Each phi can be given one label that all its operands have, phis among them included; a phi
  // that is itself a source or a reset node has that label.
  ghost predicate Labelled(s: Snapshot, labels: map<nat, Label>, sources: iset<Node>, resets: iset<Node>) {
    && labels.Keys == s.opsVar.Keys
    && (forall p :: p in s.opsVar && p in s.nodes ==> OwnLabel(sources, resets, p) == Plain || OwnLabel(sources, resets, p) == labels[p])
    && (forall p, o :: p in s.opsVar && p in s.nodes && o in s.opsVar[p] ==>
          LabelOf(s.opsVar, labels, sources, resets, o) == labels[p])
  }

  // The operands of a phi that passed the test have the phi's label themselves.
  lemma OperandLabels(preds: map<nat, set<nat>>, s: Snapshot, phi: nat, kept: nat, labels: map<nat, Label>,
                      sources: iset<Node>, resets: iset<Node>)
    requires WellFormed(s.edges, s.nodes, s.opsVar, preds) && phi in s.opsVar && phi in s.nodes
    requires AdjacentEquivalent(s.edges, s.opsVar.Keys, s.opsVar[phi]) && kept in Members(s.opsVar[phi])
    requires Labelled(s, labels, sources, resets)
    ensures Harmless(s, phi, kept, sources, resets)
  {
    PassedTest(s.edges, s.nodes, s.opsVar, preds, phi);
    hide WellFormed, AdjacentEquivalent, Eliminable;
    forall o | o in Members(s.opsVar[phi]) ensures OwnLabel(sources, resets, o) == labels[phi] {
      assert LabelOf(s.opsVar, labels, sources, resets, o) == labels[phi];
    }
  }

  // The new operands of a phi have its label.
  lemma NewOperandLabel(s: Snapshot, p: nat, phi: nat, kept: nat, changed: bool, o: nat,
                        labels: map<nat, Label>, sources: iset<Node>, resets: iset<Node>)
    requires Labelled(s, labels, sources, resets) && p in s.opsVar && p in s.nodes && phi in s.opsVar && phi in s.nodes
    requires kept in s.opsVar[phi] && o in OpsAfter(s.opsVar[p], changed, phi, kept)
    ensures LabelOf(s.opsVar, labels, sources, resets, o) == labels[p]
  {
    if o !in s.opsVar[p] {
      if phi !in s.opsVar[p] {
        ReplaceAbsent(s.opsVar[p], phi, kept);
      }
      assert o == kept;
      assert LabelOf(s.opsVar, labels, sources, resets, phi) == labels[p];
      assert LabelOf(s.opsVar, labels, sources, resets, kept) == labels[phi];
    }
  }

  lemma StepKeepsLabels(preds: map<nat, set<nat>>, s: Snapshot, t: Snapshot, phi: nat, kept: nat,
                        labels: map<nat, Label>, sources: iset<Node>, resets: iset<Node>)
    requires Eliminates(preds, s, t, phi, kept) && Labelled(s, labels, sources, resets)
    ensures Labelled(t, labels, sources, resets)
  {
    hide WellFormed, AdjacentEquivalent, Rewired, DepEdges.Arrows, OpsAfter, ReplaceFirst;
    assert kept in s.opsVar[phi];
    forall p, o | p in t.opsVar && p in t.nodes && o in t.opsVar[p]
      ensures LabelOf(t.opsVar, labels, sources, resets, o) == labels[p]
    {
      NewOperandLabel(s, p, phi, kept, (Var(phi), Var(p)) in s.edges.Arrows(), o, labels, sources, resets);
    }
  }

  lemma {:induction false} LabelledRunIsHarmless(preds: map<nat, set<nat>>, states: seq<Snapshot>, steps: seq<(nat, nat)>,
                                                 labels: map<nat, Label>, sources: iset<Node>, resets: iset<Node>, i: nat)
    requires IsRun(preds, states, steps) && Labelled(states[0], labels, sources, resets) && i <= |steps|
    ensures Labelled(states[i], labels, sources, resets)
    ensures i < |steps| ==> Harmless(states[i], steps[i].0, steps[i].1, sources, resets)
  {
    hide Harmless, Labelled, WellFormed, AdjacentEquivalent, Rewired, OpsAfter, DepEdges.Arrows;
    if i > 0 {
      LabelledRunIsHarmless(preds, states, steps, labels, sources, resets, i - 1);
      assert Eliminates(preds, states[i - 1], states[i], steps[i - 1].0, steps[i - 1].1);
      StepKeepsLabels(preds, states[i - 1], states[i], steps[i - 1].0, steps[i - 1].1, labels, sources, resets);
    }
    if i < |steps| {
      assert Eliminates(preds, states[i], states[i + 1], steps[i].0, steps[i].1);
      OperandLabels(preds, states[i], steps[i].0, steps[i].1, labels, sources, resets);
    }
  }

  /* Predicate edges stay until their phi is eliminated. */

  ghost predicate AllPredsLinked(preds: map<nat, set<nat>>, s: Snapshot) {
    forall p :: p in s.opsVar && p in preds && p in s.nodes ==> PredsLinked(s.edges.Arrows(), preds[p], p)
  }

  lemma StepKeepsPreds(preds: map<nat, set<nat>>, s: Snapshot, t: Snapshot, phi: nat, kept: nat)
    requires Eliminates(preds, s, t, phi, kept) && AllPredsLinked(preds, s)
    ensures AllPredsLinked(preds, t)
  {
    hide WellFormed, AdjacentEquivalent, DepEdges.Arrows, OpsAfter;
    forall p | p in t.opsVar && p in preds && p in t.nodes ensures PredsLinked(t.edges.Arrows(), preds[p], p) {
      assert PredsLinked(s.edges.Arrows(), preds[p], p);
      forall v | v in preds[p] ensures (Value(v), Var(p)) in t.edges.Arrows() {
        assert (Value(v), Var(p)) in s.edges.Arrows();
      }
    }
  }

  // In a graph built with its predicate edges they are there for every elimination; then an edge is
  // missing exactly if operands that are given up are linked to each other.
  lemma {:induction false} RunKeepsPreds(preds: map<nat, set<nat>>, states: seq<Snapshot>, steps: seq<(nat, nat)>, i: nat)
    requires IsRun(preds, states, steps) && AllPredsLinked(preds, states[0]) && i <= |steps|
    ensures AllPredsLinked(preds, states[i])
    ensures i < |steps| ==> steps[i].0 in preds && PredsLinked(states[i].edges.Arrows(), preds[steps[i].0], steps[i].0)
  {
    hide AllPredsLinked, AdjacentEquivalent, Rewired, OpsAfter, DepEdges.Arrows, PhiOk, PredsLinked;
    if i > 0 {
      RunKeepsPreds(preds, states, steps, i - 1);
      StepKeepsPreds(preds, states[i - 1], states[i], steps[i - 1].0, steps[i - 1].1);
    }
    if i < |steps| {
      assert Eliminates(preds, states[i], states[i + 1], steps[i].0, steps[i].1);
      LinkedAt(preds, states[i], steps[i].0);
    }
  }

  lemma LinkedAt(preds: map<nat, set<nat>>, s: Snapshot, p: nat)
    requires AllPredsLinked(preds, s) && p in s.opsVar && p in preds && p in s.nodes
    ensures PredsLinked(s.edges.Arrows(), preds[p], p)
  {
  }

  /* The pass itself. */

  ghost function Snap(pass: Pass): Snapshot reads pass {
    Snapshot(pass.edges, pass.nodes, pass.opsVar)
  }

  // A run that ends in the present state.
  ghost predicate RunTo(preds: map<nat, set<nat>>, states: seq<Snapshot>, steps: seq<(nat, nat)>, s: Snapshot) {
    |states| == |steps| + 1 && IsRun(preds, states, steps) && states[|steps|] == s
  }

  lemma ExtendRun(preds: map<nat, set<nat>>, states: seq<Snapshot>, steps: seq<(nat, nat)>, s: Snapshot, t: Snapshot, phi: nat, kept: nat)
    requires RunTo(preds, states, steps, s) && Eliminates(preds, s, t, phi, kept)
    ensures RunTo(preds, states + [t], steps + [(phi, kept)], t)
  {
    hide Eliminates;
  }

  // No phi of the list that is still in the graph passes the test.
  ghost predicate NoneLeft(s: Snapshot, phis: seq<nat>) {
    forall p :: p in phis && p in s.nodes && p in s.opsVar ==> !AdjacentEquivalent(s.edges, s.opsVar.Keys, s.opsVar[p])
  }

  // One pass over the phis of a function.
  method ScanPhis(pass: Pass, phis: seq<nat>, ghost states: seq<Snapshot>, ghost steps: seq<(nat, nat)>)
    returns (changed: bool, ghost states': seq<Snapshot>, ghost steps': seq<(nat, nat)>)
    requires pass.Valid() && (forall p :: p in phis ==> p in pass.opsVar)
    requires RunTo(pass.preds, states, steps, Snap(pass))
    modifies pass
    ensures pass.Valid() && pass.opsVar.Keys == old(pass.opsVar.Keys)
    ensures RunTo(pass.preds, states', steps', Snap(pass)) && states <= states'
    ensures changed ==> pass.nodes < old(pass.nodes)
    ensures !changed ==> Snap(pass) == old(Snap(pass)) && NoneLeft(Snap(pass), phis)
  {
    hide AdjacentEquivalent, WellFormed, IsRun;
    changed, states', steps' := false, states, steps;
    var i := 0;
    while i < |phis|
      invariant 0 <= i <= |phis|
      invariant pass.Valid() && pass.opsVar.Keys == old(pass.opsVar.Keys)
      invariant RunTo(pass.preds, states', steps', Snap(pass)) && states <= states'
      invariant changed ==> pass.nodes < old(pass.nodes)
      invariant !changed ==> Snap(pass) == old(Snap(pass)) && NoneLeft(Snap(pass), phis[..i])
    {
      var phi := phis[i];
      if phi in pass.nodes {
        var can := CanEliminate(pass.edges, pass.opsVar.Keys, pass.opsVar[phi]);
        if can {
          changed := true;
          ghost var before := Snap(pass);
          ghost var kept, found := pass.EliminatePhi(phi);
          ExtendRun(pass.preds, states', steps', before, Snap(pass), phi, kept);
          StepShrinks(pass.preds, before, Snap(pass), phi, kept);
          states', steps' := states' + [Snap(pass)], steps' + [(phi, kept)];
        }
      }
      i := i + 1;
    }
    assert phis[..|phis|] == phis;
  }

  // Passes over one function until nothing changes.
  method EliminateInFunction(pass: Pass, phis: seq<nat>, ghost states: seq<Snapshot>, ghost steps: seq<(nat, nat)>)
    returns (ghost states': seq<Snapshot>, ghost steps': seq<(nat, nat)>)
    requires pass.Valid() && (forall p :: p in phis ==> p in pass.opsVar)
    requires RunTo(pass.preds, states, steps, Snap(pass))
    modifies pass
    ensures pass.Valid() && pass.opsVar.Keys == old(pass.opsVar.Keys)
    ensures RunTo(pass.preds, states', steps', Snap(pass)) && states <= states'
    ensures NoneLeft(Snap(pass), phis)
  {
    hide AdjacentEquivalent, WellFormed, IsRun;
    states', steps' := states, steps;
    var changed := true;
    while changed
      invariant pass.Valid() && pass.opsVar.Keys == old(pass.opsVar.Keys)
      invariant RunTo(pass.preds, states', steps', Snap(pass)) && states <= states'
      invariant !changed ==> NoneLeft(Snap(pass), phis)
      decreases pass.nodes, changed
    {
      changed, states', steps' := ScanPhis(pass, phis, states', steps');
    }
  }

  // The whole pass is a run of eliminations: it ends, keeps the child and parent maps inverse to
  // each other, and neither adds flow between the nodes it leaves nor loses any but through the
  // predicates of the phis it eliminated. When the turn of a function ends (at state "ends[f]"), no
  // phi of it that is left passes the test.
  method EliminatePhis(pass: Pass, functions: seq<seq<nat>>)
    returns (ghost states: seq<Snapshot>, ghost steps: seq<(nat, nat)>, ghost ends: seq<nat>)
    requires pass.Valid() && (forall f, p :: f in functions && p in f ==> p in pass.opsVar)
    modifies pass
    ensures pass.edges.Mirrored()
    ensures RunTo(pass.preds, states, steps, Snap(pass)) && states[0] == old(Snap(pass))
    ensures |ends| == |functions| && forall f :: 0 <= f < |functions| ==> EndsAt(states, ends[f], functions[f])
    ensures forall a: Node, b: Node :: Alive(pass.nodes, a) && Alive(pass.nodes, b) ==>
      && (FlowsTo(pass.edges.Arrows(), a, b) ==> FlowsTo(old(pass.edges.Arrows()), a, b))
      && (FlowsTo(Cut(old(pass.edges.Arrows()), Eliminated(steps)), a, b) ==> FlowsTo(pass.edges.Arrows(), a, b))
  {
    hide NoneLeft;
    states, steps, ends := [Snap(pass)], [], [];
    assert RunTo(pass.preds, states, steps, Snap(pass));
    var i := 0;
    while i < |functions|
      invariant 0 <= i <= |functions|
      invariant pass.Valid() && pass.opsVar.Keys == old(pass.opsVar.Keys)
      invariant RunTo(pass.preds, states, steps, Snap(pass)) && states != [] && states[0] == old(Snap(pass))
      invariant |ends| == i && forall f :: 0 <= f < i ==> EndsAt(states, ends[f], functions[f])
    {
      ghost var before := states;
      states, steps := EliminateInFunction(pass, functions[i], states, steps);
      assert forall f :: 0 <= f < i && EndsAt(before, ends[f], functions[f]) ==> EndsAt(states, ends[f], functions[f]);
      ends := ends + [|steps|];
      i := i + 1;
    }
    RunEndsPreserved(pass.preds, states, steps, Snap(pass));
  }

  ghost predicate EndsAt(states: seq<Snapshot>, k: nat, phis: seq<nat>) {
    k < |states| && NoneLeft(states[k], phis)
  }

  lemma RunEndsPreserved(preds: map<nat, set<nat>>, states: seq<Snapshot>, steps: seq<(nat, nat)>, s: Snapshot)
    requires RunTo(preds, states, steps, s)
    ensures forall a: Node, b: Node :: Alive(s.nodes, a) && Alive(s.nodes, b) ==>
      && (FlowsTo(s.edges.Arrows(), a, b) ==> FlowsTo(states[0].edges.Arrows(), a, b))
      && (FlowsTo(Cut(states[0].edges.Arrows(), Eliminated(steps)), a, b) ==> FlowsTo(s.edges.Arrows(), a, b))
  {
    hide FlowsTo;
    forall a: Node, b: Node | Alive(s.nodes, a) && Alive(s.nodes, b)
      ensures FlowsTo(s.edges.Arrows(), a, b) ==> FlowsTo(states[0].edges.Arrows(), a, b)
      ensures FlowsTo(Cut(states[0].edges.Arrows(), Eliminated(steps)), a, b) ==> FlowsTo(s.edges.Arrows(), a, b)
    {
      RunPreservesFlow(preds, states, steps, {}, a, b);
      assert {} + Eliminated(steps) == Eliminated(steps);
      assert Cut(s.edges.Arrows(), {}) == s.edges.Arrows();
    }
  }
}
