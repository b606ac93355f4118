// What the walk records is tainted in some calling context: along a path of edges on which calls and
// returns match.
module TaintContexts {
  import opened Sequences
  import opened TaintGraph
  import opened TaintFlood
  import opened TaintSteps
  import opened TaintCalls
  import opened TaintRoutes
  import opened TaintChains

  /* What is promised, in terms of the graph's own tables. */

  // A node of the last function of the chain.
  datatype Spot = Spot(node: Node, chain: seq<nat>)

  // Along an edge that leaves no reset node: in the function, into a callee, or back to the caller.
  ghost predicate Steps(p: Program, a: Spot, b: Spot) {
    && p.edges.Has(a.node, b.node) && !IsReset(p, a.node)
    && (a.chain == b.chain || (|b.chain| > 1 && a.chain == b.chain[..|b.chain| - 1]) || (|a.chain| > 1 && b.chain == a.chain[..|a.chain| - 1]))
  }

  ghost predicate IsSpot(p: Program, entry: nat, a: Spot) {
    CallChain(p, entry, a.chain) && LiesIn(p, Last(a.chain), a.node)
  }

  // A path from a source on which calls and returns match.
  ghost predicate IsMatched(p: Program, entry: nat, w: seq<Spot>) {
    && w != [] && (forall i :: 0 <= i < |w| ==> IsSpot(p, entry, w[i])) && IsSourceIn(p, Last(w[0].chain), w[0].node)
    && forall i, j :: 0 <= i < j < |w| && j == i + 1 ==> Steps(p, w[i], w[j])
  }

  ghost predicate EndsAt(p: Program, entry: nat, w: seq<Spot>, a: Spot) {
    IsMatched(p, entry, w) && w[|w| - 1] == a
  }

  ghost predicate Occurs(p: Program, entry: nat, a: Spot) {
    exists w :: EndsAt(p, entry, w, a)
  }

  // Tainted in some calling context.
  ghost predicate InContext(p: Program, entries: set<nat>, n: Node) {
    exists entry, chain :: entry in entries && Occurs(p, entry, Spot(n, chain))
  }

  ghost predicate AllInContext(p: Program, entries: set<nat>, conditions: set<nat>) {
    forall v :: v in conditions ==> InContext(p, entries, Value(v))
  }

  // No function comes twice on a chain of calls.
  ghost predicate NoRecursion(p: Program) {
    forall entry, chain :: CallChain(p, entry, chain) ==> NoDuplicates(chain)
  }

  /* Matched paths. */

  lemma OccursAtSource(p: Program, entry: nat, a: Spot)
    requires IsSpot(p, entry, a) && IsSourceIn(p, Last(a.chain), a.node)
    ensures Occurs(p, entry, a)
  {
    assert EndsAt(p, entry, [a], a);
  }

  lemma OccursNext(p: Program, entry: nat, a: Spot, b: Spot)
    requires Occurs(p, entry, a) && Steps(p, a, b) && IsSpot(p, entry, b)
    ensures Occurs(p, entry, b)
  {
    hide IsSpot, IsSourceIn, Steps;
    var w :| EndsAt(p, entry, w, a);
    var w' := w + [b];
    forall i, j | 0 <= i < j < |w'| && j == i + 1 ensures Steps(p, w'[i], w'[j]) {
      if j < |w| {
        assert Steps(p, w[i], w[j]);
      }
    }
    assert EndsAt(p, entry, w', b);
  }

  lemma OccursIsSpot(p: Program, entry: nat, a: Spot)
    requires Occurs(p, entry, a)
    ensures IsSpot(p, entry, a)
  {
    hide IsSpot;
    var w :| EndsAt(p, entry, w, a);
  }

  // A chain of calls goes on with one from its last function.
  lemma ChainsJoin(p: Program, entry: nat, above: seq<nat>, f: nat, chain: seq<nat>)
    requires CallChain(p, entry, above + [f]) && CallChain(p, f, chain)
    ensures CallChain(p, entry, above + chain) && Last(above + chain) == Last(chain)
  {
    hide Calls;
    var d, c := above + chain, above + [f];
    forall i, j | 0 <= i < j < |d| && j == i + 1 ensures Calls(p, d[i], d[j]) {
      if j < |c| {
        assert Calls(p, c[i], c[j]);
      } else {
        assert Calls(p, chain[i - |above|], chain[j - |above|]);
      }
    }
  }

  function Under(above: seq<nat>, a: Spot): Spot {
    Spot(a.node, above + a.chain)
  }

  // What is tainted in a function called by itself is so when it is called from above.
  lemma OccursUnder(p: Program, entry: nat, above: seq<nat>, f: nat, a: Spot)
    requires CallChain(p, entry, above + [f]) && Occurs(p, f, a)
    ensures Occurs(p, entry, Under(above, a))
  {
    hide CallChain, LiesIn, IsSourceIn;
    var w: seq<Spot> :| EndsAt(p, f, w, a);
    var w' := seq(|w|, i requires 0 <= i < |w| => Under(above, w[i]));
    forall i | 0 <= i < |w'| ensures IsSpot(p, entry, w'[i]) {
      assert IsSpot(p, f, w[i]);
      SpotUnder(p, entry, above, f, w[i]);
    }
    SpotUnder(p, entry, above, f, w[0]);
    forall i, j | 0 <= i < j < |w'| && j == i + 1 ensures Steps(p, w'[i], w'[j]) {
      assert Steps(p, w[i], w[j]);
      StepsUnder(p, above, w[i], w[j]);
    }
    assert EndsAt(p, entry, w', Under(above, a));
  }

  lemma SpotUnder(p: Program, entry: nat, above: seq<nat>, f: nat, a: Spot)
    requires CallChain(p, entry, above + [f]) && IsSpot(p, f, a)
    ensures IsSpot(p, entry, Under(above, a)) && a.chain != [] && Last(above + a.chain) == Last(a.chain)
  {
    hide LiesIn;
    ChainsJoin(p, entry, above, f, a.chain);
  }

  lemma StepsUnder(p: Program, above: seq<nat>, a: Spot, b: Spot)
    requires Steps(p, a, b)
    ensures Steps(p, Under(above, a), Under(above, b))
  {
    var c, d := above + a.chain, above + b.chain;
    assert |b.chain| > 0 ==> d[..|d| - 1] == above + b.chain[..|b.chain| - 1];
    assert |a.chain| > 0 ==> c[..|c| - 1] == above + a.chain[..|a.chain| - 1];
  }

  /* What is tainted during the walk. */

  // The node is tainted in the contexts of those functions on the stack that it lies in; "back" has
  // just left the stack.
  ghost predicate Placed(p: Program, entry: nat, stack: seq<nat>, back: Option<nat>, n: Node) {
    && (forall i :: 0 <= i < |stack| && LiesIn(p, stack[i], n) ==> Occurs(p, entry, Spot(n, stack[..i + 1])))
    && (back.Some? && LiesIn(p, back.value, n) ==> Occurs(p, entry, Spot(n, stack + [back.value])))
  }

  ghost function PlacedNodes(p: Program, entry: nat, stack: seq<nat>, back: Option<nat>): iset<Node> {
    iset n: Node | Placed(p, entry, stack, back, n)
  }

  ghost predicate AllPlaced(p: Program, entry: nat, stack: seq<nat>, back: Option<nat>, t: Taint) {
    forall n: Node :: t.Has(n) ==> Placed(p, entry, stack, back, n)
  }

  // What earlier entries have left behind.
  ghost predicate LeftBehind(p: Program, entries: set<nat>, t: Taint) {
    forall n: Node :: t.Has(n) ==> HasEntry(p, entries, n)
  }

  ghost predicate HasEntry(p: Program, entries: set<nat>, n: Node) {
    exists f :: f in entries && Occurs(p, f, Spot(n, [f]))
  }

  // A set that edges into the function do not leave keeps all taint when something crosses ...
  lemma {:induction false} CrossStaysIn(p: Program, to: nat, order: seq<Node>, t: Taint, good: iset<Node>)
    requires forall n: Node :: t.Has(n) ==> n in good
    requires forall m: Node, n: Node :: m in order && m in good && !IsReset(p, m) && p.edges.Has(m, n) && LiesIn(p, to, n) ==> n in good
    ensures forall n: Node :: CrossAll(p, to, order, t).Has(n) ==> n in good
  {
    if order != [] {
      var init, m := order[..|order| - 1], order[|order| - 1];
      CrossStaysIn(p, to, init, t, good);
      CrossLast(p, to, order, t);
      var u := CrossAll(p, to, init, t);
      hide CrossAll;
      forall n: Node | CrossOne(p, to, m, u).Has(n) ensures n in good {
        LiesInIsNodeOf(p, to, n);
        if !u.Has(n) {
          assert u.Has(m) && !IsReset(p, m) && p.edges.Has(m, n) && LiesIn(p, to, n);
        }
      }
    }
  }

  // ... and when the function is flooded, if it holds its sources.
  lemma FloodStaysIn(p: Program, f: nat, entered: Taint, flooded: Taint, good: iset<Node>)
    requires Flooded(p, f, entered, flooded) && SourcesAreNodes(p)
    requires forall n: Node :: entered.Has(n) ==> n in good
    requires forall n: Node :: LiesIn(p, f, n) && IsSourceIn(p, f, n) ==> n in good
    requires forall m: Node, n: Node :: LiesIn(p, f, m) && m in good && !IsReset(p, m) && p.edges.Has(m, n) && LiesIn(p, f, n) ==> n in good
    ensures forall n: Node :: flooded.Has(n) ==> n in good
  {
    var start := Taint(entered.vars + p.SourcesIn(f).vars, entered.values + p.SourcesIn(f).values);
    forall n: Node | start.Has(n) ensures n in good {
      SourcesLieIn(p, f, n);
    }
    forall a: Node, b: Node | (a, b) in p.Local(f).Arrows() && a in good && a !in Resets(p.resets) ensures b in good {
      LocalArrows(p, f, a, b);
      LiesInIsNodeOf(p, f, a);
      LiesInIsNodeOf(p, f, b);
    }
    assert Floods(p.Local(f).Arrows(), start.Nodes(), Resets(p.resets), good);
    forall n: Node | flooded.Has(n) ensures n in good {
      assert n in flooded.Nodes();
    }
  }

  lemma SourcesLieIn(p: Program, f: nat, n: Node)
    requires SourcesAreNodes(p)
    ensures p.SourcesIn(f).Has(n) ==> LiesIn(p, f, n) && IsSourceIn(p, f, n)
  {
    assert p.SourcesIn(f).values <= p.Values(f);
  }

  // Functions have their own nodes, sources lie in them, and there is no recursion.
  ghost predicate Separate(p: Program) {
    AllDisjoint(p) && SourcesAreNodes(p) && NoRecursion(p)
  }

  lemma OneOwner(p: Program, f: nat, g: nat, n: Node)
    requires AllDisjoint(p)
    ensures LiesIn(p, f, n) && LiesIn(p, g, n) ==> f == g
  {
    assert f != g ==> Disjoint(p, f, g);
  }

  lemma NewOnStack(stack: seq<nat>, f: nat)
    requires NoDuplicates(stack + [f])
    ensures f !in stack
  {
    var d := stack + [f];
    forall j | 0 <= j < |stack| ensures stack[j] != f {
      assert d[j] == stack[j] && d[|stack|] == f;
    }
  }

  // What is tainted in the context of the stack is placed.
  lemma TopIsPlaced(p: Program, entry: nat, stack: seq<nat>, back: Option<nat>, n: Node)
    requires Separate(p) && stack != [] && CallChain(p, entry, stack) && (back.Some? ==> CallChain(p, entry, stack + [back.value]))
    requires Occurs(p, entry, Spot(n, stack))
    ensures Placed(p, entry, stack, back, n)
  {
    hide Occurs, CallChain, LiesIn;
    OccursIsSpot(p, entry, Spot(n, stack));
    assert NoDuplicates(stack) && stack[..|stack|] == stack;
    forall i | 0 <= i < |stack| && LiesIn(p, stack[i], n) ensures Occurs(p, entry, Spot(n, stack[..i + 1])) {
      OneOwner(p, stack[i], Last(stack), n);
      assert i == |stack| - 1;
    }
    if back.Some? {
      NewOnStack(stack, back.value);
      OneOwner(p, back.value, Last(stack), n);
    }
  }

  // An edge from a node that is placed into the function on top: from itself, the one below, or the
  // one that has just returned.
  lemma EdgeIsPlaced(p: Program, entry: nat, stack: seq<nat>, back: Option<nat>, from: nat, m: Node, n: Node)
    requires Separate(p) && stack != [] && CallChain(p, entry, stack) && (back.Some? ==> CallChain(p, entry, stack + [back.value]))
    requires from == Last(stack) || (|stack| > 1 && from == stack[|stack| - 2]) || back == Some(from)
    requires Placed(p, entry, stack, back, m) && LiesIn(p, from, m) && !IsReset(p, m) && p.edges.Has(m, n) && LiesIn(p, Last(stack), n)
    ensures Placed(p, entry, stack, back, n)
  {
    hide Occurs, CallChain, LiesIn, Separate;
    var k := |stack| - 1;
    assert stack[..k + 1] == stack && (stack + [from])[..k + 1] == stack;
    var c := if from == Last(stack) then stack else if k > 0 && from == stack[k - 1] then stack[..k] else stack + [from];
    assert Occurs(p, entry, Spot(m, c)) by {
      assert k > 0 ==> stack[..k - 1 + 1] == stack[..k];
    }
    OccursNext(p, entry, Spot(m, c), Spot(n, stack));
    TopIsPlaced(p, entry, stack, back, n);
  }

  /* The walk. */

  function BackOf(s: Stage): Option<nat> {
    if s.hasPrev && !s.goingDown then Some(s.prev) else None
  }

  // The function before is on top, below the top, or has just returned to it.
  ghost predicate BeforeStands(p: Program, entry: nat, s: Stage) {
    && (s.hasPrev && s.goingDown ==> s.stack != [] && (s.prev == Last(s.stack) || (|s.stack| > 1 && s.prev == s.stack[|s.stack| - 2])))
    && (s.hasPrev && !s.goingDown ==> CallChain(p, entry, s.stack + [s.prev]))
  }

  ghost predicate ContextsAt(p: Program, entry: nat, entries: set<nat>, s: Stage) {
    AllPlaced(p, entry, s.stack, BackOf(s), s.t) && AllInContext(p, entries, s.conditions) && BeforeStands(p, entry, s)
  }

  // Crossing and flooding taint nothing out of context.
  lemma FloodedIsPlaced(p: Program, entry: nat, s: Stage, s': Stage, n: nat, order: seq<Node>, entered: Taint, flooded: Taint)
    requires Separate(p) && s.stack != [] && CallChain(p, entry, s.stack) && n == Last(s.stack) && BeforeStands(p, entry, s)
    requires AllPlaced(p, entry, s.stack, BackOf(s), s.t) && RoundTaints(p, s, s', n, order, entered, flooded)
    ensures AllPlaced(p, entry, s.stack, BackOf(s), flooded)
  {
    var back, good := BackOf(s), PlacedNodes(p, entry, s.stack, BackOf(s));
    hide Separate, CallChain, CrossAll, Flooded, LiesIn, IsReset, Occurs, Placed, IsSourceIn;
    if s.hasPrev {
      forall x: Node, y: Node | x in order && x in good && !IsReset(p, x) && p.edges.Has(x, y) && LiesIn(p, n, y) ensures y in good {
        LiesInIsNodeOf(p, s.prev, x);
        EdgeIsPlaced(p, entry, s.stack, back, s.prev, x, y);
      }
      CrossStaysIn(p, n, order, s.t, good);
    }
    forall y: Node | LiesIn(p, n, y) && IsSourceIn(p, n, y) ensures y in good {
      OccursAtSource(p, entry, Spot(y, s.stack));
      TopIsPlaced(p, entry, s.stack, back, y);
    }
    forall x: Node, y: Node | LiesIn(p, n, x) && x in good && !IsReset(p, x) && p.edges.Has(x, y) && LiesIn(p, n, y) ensures y in good {
      EdgeIsPlaced(p, entry, s.stack, back, n, x, y);
    }
    assert SourcesAreNodes(p) by { IsSeparate(p); }
    FloodStaysIn(p, n, entered, flooded, good);
  }

  lemma IsSeparate(p: Program)
    requires Separate(p)
    ensures AllDisjoint(p) && SourcesAreNodes(p) && NoRecursion(p)
  {
  }

  // A tainted node that lies in a function of the walk, or that an earlier entry has left behind, is
  // tainted in some context.
  lemma PlacedIsInContext(p: Program, entry: nat, entries: set<nat>, stack: seq<nat>, back: Option<nat>, fs: set<nat>, t0: Taint, n: Node)
    requires entry in entries && LeftBehind(p, entries, t0) && Placed(p, entry, stack, back, n)
    requires t0.Has(n) || HasOwner(p, fs, n)
    requires fs <= OnStack(stack) + (if back.Some? then {back.value} else {})
    ensures InContext(p, entries, n)
  {
    hide Occurs, LiesIn, NodeOf;
    if t0.Has(n) {
      assert HasEntry(p, entries, n);
      var f :| f in entries && Occurs(p, f, Spot(n, [f]));
    } else {
      var f :| f in fs && NodeOf(p, f, n);
      LiesInIsNodeOf(p, f, n);
      if f in stack {
        var i :| 0 <= i < |stack| && stack[i] == f;
        assert Occurs(p, entry, Spot(n, stack[..i + 1]));
      } else {
        assert Occurs(p, entry, Spot(n, stack + [f]));
      }
    }
  }

  // A pushed function holds no taint but what is left behind.
  lemma PushedIsPlaced(p: Program, entry: nat, entries: set<nat>, stack: seq<nat>, back: Option<nat>, callee: nat, t0: Taint, t: Taint)
    requires Separate(p) && LeftBehind(p, entries, t0) && AllPlaced(p, entry, stack, back, t) && CarriedBy(p, OnStack(stack), t0, t)
    requires CallChain(p, entry, stack + [callee])
    ensures AllPlaced(p, entry, stack + [callee], None, t)
  {
    var d := stack + [callee];
    assert NoDuplicates(d);
    IsSeparate(p);
    hide Occurs, LiesIn, NodeOf, CallChain, Separate, AllDisjoint;
    forall n: Node | t.Has(n) ensures Placed(p, entry, d, None, n) {
      forall i | 0 <= i < |d| && LiesIn(p, d[i], n) ensures Occurs(p, entry, Spot(n, d[..i + 1])) {
        if i < |stack| {
          assert d[..i + 1] == stack[..i + 1] && Placed(p, entry, stack, back, n);
        } else {
          NotOnStack(p, stack, callee, n);
          LeftIsPlaced(p, entry, entries, stack, callee, t0, n);
          assert d[..i + 1] == d;
        }
      }
    }
  }

  lemma NotOnStack(p: Program, stack: seq<nat>, callee: nat, n: Node)
    requires AllDisjoint(p) && NoDuplicates(stack + [callee]) && LiesIn(p, callee, n)
    ensures !HasOwner(p, OnStack(stack), n)
  {
    hide LiesIn, NodeOf, AllDisjoint;
    NewOnStack(stack, callee);
    forall f | f in OnStack(stack) ensures !NodeOf(p, f, n) {
      LiesInIsNodeOf(p, f, n);
      OneOwner(p, f, callee, n);
    }
  }

  lemma LeftIsPlaced(p: Program, entry: nat, entries: set<nat>, stack: seq<nat>, callee: nat, t0: Taint, n: Node)
    requires AllDisjoint(p) && LeftBehind(p, entries, t0) && t0.Has(n) && LiesIn(p, callee, n) && CallChain(p, entry, stack + [callee])
    ensures Occurs(p, entry, Spot(n, stack + [callee]))
  {
    hide Occurs, CallChain, LiesIn;
    assert HasEntry(p, entries, n);
    var f :| f in entries && Occurs(p, f, Spot(n, [f]));
    OccursIsSpot(p, f, Spot(n, [f]));
    OneOwner(p, f, callee, n);
    OccursUnder(p, entry, stack, callee, Spot(n, [f]));
  }

  // A function that leaves the stack is the one that has just returned.
  lemma PoppedIsPlaced(p: Program, entry: nat, stack: seq<nat>, back: Option<nat>, t: Taint)
    requires stack != [] && AllPlaced(p, entry, stack, back, t)
    ensures AllPlaced(p, entry, stack[..|stack| - 1], Some(Last(stack)), t)
  {
    hide Occurs, LiesIn;
    var k := |stack| - 1;
    var c := stack[..k];
    assert c + [Last(stack)] == stack && stack[..k + 1] == stack;
    forall n: Node | t.Has(n) ensures Placed(p, entry, c, Some(Last(stack)), n) {
      assert Placed(p, entry, stack, back, n);
      assert LiesIn(p, stack[k], n) ==> Occurs(p, entry, Spot(n, stack[..k + 1]));
      forall i | 0 <= i < k && LiesIn(p, c[i], n) ensures Occurs(p, entry, Spot(n, c[..i + 1])) {
        assert c[..i + 1] == stack[..i + 1] && LiesIn(p, stack[i], n);
      }
    }
  }

  lemma FewerPlaced(p: Program, entry: nat, stack: seq<nat>, back: Option<nat>, t: Taint, t': Taint)
    requires AllPlaced(p, entry, stack, back, t) && t'.vars <= t.vars && t'.values <= t.values
    ensures AllPlaced(p, entry, stack, back, t') && AllPlaced(p, entry, stack, None, t')
  {
    hide Occurs, LiesIn;
    forall n: Node | t'.Has(n) ensures Placed(p, entry, stack, back, n) && Placed(p, entry, stack, None, n) {
      assert t.Has(n);
    }
  }

  // Only what is tainted in some context is recorded.
  lemma RoundRecordsInContext(p: Program, entry: nat, entries: set<nat>, t0: Taint, s: Stage, s': Stage, flooded: Taint)
    requires entry in entries && LeftBehind(p, entries, t0) && AllInContext(p, entries, s.conditions) && BeforeStands(p, entry, s)
    requires AllPlaced(p, entry, s.stack, BackOf(s), flooded) && CarriedBy(p, OnStack(s.stack), t0, s'.t)
    requires s'.t == (if s.hasPrev && !s.goingDown then Taint(flooded.vars - p.Vars(s.prev), flooded.values - p.Values(s.prev)) else flooded)
    requires forall v :: v in s'.conditions ==> v in s.conditions || v in flooded.values
    ensures AllInContext(p, entries, s'.conditions)
  {
    hide InContext, Placed, CallChain, LeftBehind;
    var fs := OnStack(s.stack) + (if BackOf(s).Some? then {s.prev} else {});
    forall v | v in s'.conditions ensures InContext(p, entries, Value(v)) {
      if v !in s.conditions {
        assert flooded.Has(Value(v)) && Placed(p, entry, s.stack, BackOf(s), Value(v));
        assert t0.Has(Value(v)) || HasOwner(p, fs, Value(v)) by {
          if s'.t.Has(Value(v)) {
            MoreOwners(p, OnStack(s.stack), fs, Value(v));
          } else {
            assert NodeOf(p, s.prev, Value(v));
          }
        }
        PlacedIsInContext(p, entry, entries, s.stack, BackOf(s), fs, t0, Value(v));
      }
    }
  }

  lemma MoreOwners(p: Program, fs: set<nat>, gs: set<nat>, n: Node)
    requires fs <= gs
    ensures HasOwner(p, fs, n) ==> HasOwner(p, gs, n)
  {
  }

  // A round keeps it.
  lemma RoundKeepsContexts(p: Program, entry: nat, entries: set<nat>, t0: Taint, s: Stage, s': Stage, n: nat, found: bool, pushed: bool,
                           callee: nat, order: seq<Node>, entered: Taint, flooded: Taint)
    requires Separate(p) && entry in entries && LeftBehind(p, entries, t0) && ContextsAt(p, entry, entries, s)
    requires s.stack != [] && CallChain(p, entry, s.stack) && (s'.stack != [] ==> CallChain(p, entry, s'.stack))
    requires RoundMoves(p, s, s', n, found, pushed, callee) && RoundTaints(p, s, s', n, order, entered, flooded)
    requires CarriedBy(p, OnStack(s.stack), t0, s'.t) && forall v :: v in s'.conditions ==> v in s.conditions || v in flooded.values
    ensures ContextsAt(p, entry, entries, s')
  {
    FloodedIsPlaced(p, entry, s, s', n, order, entered, flooded);
    RoundRecordsInContext(p, entry, entries, t0, s, s', flooded);
    FewerPlaced(p, entry, s.stack, BackOf(s), flooded, s'.t);
    hide Separate, CallChain, AllPlaced, AllInContext, CarriedBy, LeftBehind, CrossAll, Flooded, HasCallee;
    if pushed {
      PushedIsPlaced(p, entry, entries, s.stack, BackOf(s), callee, t0, s'.t);
    } else if !found {
      PoppedIsPlaced(p, entry, s.stack, BackOf(s), s'.t);
      assert s'.stack + [n] == s.stack;
    }
  }

  lemma StartContexts(p: Program, entry: nat, entries: set<nat>, t0: Taint, s: Stage)
    requires Separate(p) && entry in entries && LeftBehind(p, entries, t0) && AllInContext(p, entries, s.conditions)
    requires s.stack == [entry] && !s.hasPrev && s.t == t0
    ensures ContextsAt(p, entry, entries, s)
  {
    hide Occurs, LiesIn, AllInContext;
    forall n: Node | t0.Has(n) ensures Placed(p, entry, [entry], None, n) {
      if LiesIn(p, entry, n) {
        assert CallChain(p, entry, [] + [entry]);
        LeftIsPlaced(p, entry, entries, [], entry, t0, n);
        assert [entry][..1] == [entry] == [] + [entry];
      }
    }
  }

  // The entry leaves only its own nodes behind.
  lemma EndContexts(p: Program, entry: nat, entries: set<nat>, t0: Taint, s: Stage)
    requires entry in entries && LeftBehind(p, entries, t0) && ContextsAt(p, entry, entries, s)
    requires s.stack == [] && s.hasPrev && s.prev == entry && CarriedBy(p, {entry}, t0, s.t)
    ensures LeftBehind(p, entries, s.t) && AllInContext(p, entries, s.conditions)
  {
    hide Occurs, LiesIn, CallChain, AllInContext;
    forall n: Node | s.t.Has(n) ensures HasEntry(p, entries, n) {
      assert Placed(p, entry, [], Some(entry), n);
      if !t0.Has(n) {
        LiesInIsNodeOf(p, entry, n);
        assert [] + [entry] == [entry];
        assert Occurs(p, entry, Spot(n, [entry]));
      }
    }
  }
}
