// Routes of taint: paths of edges that follow calls and returns in the order in which the walk takes
// them, and what flooding and crossing do along them.
module TaintRoutes {
  import opened Sequences
  import opened TaintGraph
  import opened TaintFlood
  import opened TaintSteps
  import opened TaintCalls

  /* What is promised, in terms of the graph's own tables. */

  ghost predicate LiesIn(p: Program, f: nat, n: Node) {
    match n
    case Var(v) => f in p.varsOf && v in p.varsOf[f]
    case Value(v) => f in p.valuesOf && v in p.valuesOf[f]
  }

  // A source of "f": one of its variables, or a value that an instruction in it defines.
  ghost predicate IsSourceIn(p: Program, f: nat, n: Node) {
    match n
    case Var(v) => v in p.varSources
    case Value(v) => v in p.valueSources && v in p.home && p.home[v] == f
  }

  ghost predicate IsReset(p: Program, n: Node) {
    n.Var? && n.id in p.resets
  }

  // No reset variable flows to the node.
  ghost predicate Undisturbed(p: Program, n: Node) {
    forall r: nat :: r in p.resets ==> !p.edges.Has(Var(r), n)
  }

  // A call site of "f" depends on the value.
  ghost predicate DecidesIn(p: Program, f: nat, v: nat) {
    exists c :: f in p.callSites && c in p.callSites[f] && c in p.condsOf && v in p.condsOf[c]
  }

  ghost predicate HasCallee(p: Program, f: nat, g: nat) {
    f in p.callees && g in p.callees[f]
  }

  function Last(chain: seq<nat>): nat
    requires chain != []
  {
    chain[|chain| - 1]
  }

  ghost predicate Calls(p: Program, f: nat, g: nat) {
    HasCallee(p, f, g) && g in p.defined
  }

  // The functions of the chain call each other in order from the entry on.
  ghost predicate CallChain(p: Program, entry: nat, chain: seq<nat>) {
    chain != [] && chain[0] == entry && forall i, j :: 0 <= i < j < |chain| && j == i + 1 ==> Calls(p, chain[i], chain[j])
  }

  ghost predicate IsCalled(p: Program, entry: nat, f: nat) {
    exists chain :: CallChain(p, entry, chain) && Last(chain) == f
  }

  // Of the functions that calls lead to from the entry no other one calls "g".
  ghost predicate OnlyCall(p: Program, entry: nat, f: nat, g: nat) {
    Calls(p, f, g) && forall h: nat :: IsCalled(p, entry, h) && HasCallee(p, h, g) ==> h == f
  }

  // A chain of such calls, from an entry that none of these functions calls.
  ghost predicate OnlyChain(p: Program, entry: nat, chain: seq<nat>) {
    && chain != [] && chain[0] == entry && (forall g: nat :: IsCalled(p, entry, g) ==> !HasCallee(p, g, entry))
    && forall i, j :: 0 <= i < j < |chain| && j == i + 1 ==> OnlyCall(p, entry, chain[i], chain[j])
  }

  // The first call of "g" in "f" stands before all calls of "h".
  ghost predicate Before(p: Program, f: nat, g: nat, h: nat) {
    f in p.callees && exists i :: 0 <= i < |p.callees[f]| && p.callees[f][i] == g && h !in p.callees[f][..i + 1]
  }

  // Where a route is: at a node of the last function of the chain. If the route came back to the
  // function from a callee, that is "back".
  datatype Place = Place(node: Node, chain: seq<nat>, back: Option<nat>)

  ghost predicate IsStop(p: Program, entry: nat, chain: seq<nat>, back: Option<nat>) {
    OnlyChain(p, entry, chain) && (back.Some? ==> OnlyChain(p, entry, chain + [back.value]))
  }

  ghost predicate IsPlace(p: Program, entry: nat, a: Place) {
    IsStop(p, entry, a.chain, a.back) && LiesIn(p, Last(a.chain), a.node)
  }

  // Along an edge that leaves no reset node the route stays in the function, enters a callee, or goes
  // back to the caller. It enters after coming back only a callee that is called later. Where it
  // enters or goes back no reset variable interferes.
  ghost predicate Moves(p: Program, a: Place, b: Place) {
    && p.edges.Has(a.node, b.node) && !IsReset(p, a.node)
    && (Stays(a, b) || (Undisturbed(p, b.node) && (Enters(p, a, b) || GoesBack(a, b))))
  }

  ghost predicate Stays(a: Place, b: Place) {
    a.chain == b.chain && a.back == b.back
  }

  ghost predicate Enters(p: Program, a: Place, b: Place) {
    && |b.chain| > 1 && a.chain == b.chain[..|b.chain| - 1] && b.back == None
    && (a.back.Some? ==> Before(p, Last(a.chain), a.back.value, Last(b.chain)))
  }

  ghost predicate GoesBack(a: Place, b: Place) {
    |a.chain| > 1 && b.chain == a.chain[..|a.chain| - 1] && b.back == Some(Last(a.chain))
  }

  // A route from a source.
  ghost predicate IsRoute(p: Program, entry: nat, w: seq<Place>) {
    && w != [] && (forall i :: 0 <= i < |w| ==> IsPlace(p, entry, w[i]))
    && w[0].back == None && IsSourceIn(p, Last(w[0].chain), w[0].node)
    && forall i, j :: 0 <= i < j < |w| && j == i + 1 ==> Moves(p, w[i], w[j])
  }

  ghost predicate LeadsTo(p: Program, entry: nat, w: seq<Place>, b: Place) {
    IsRoute(p, entry, w) && w[|w| - 1] == b
  }

  ghost predicate Reaches(p: Program, entry: nat, b: Place) {
    exists w :: LeadsTo(p, entry, w, b)
  }

  // The conditions of a function that routes from the entry reach in it have been recorded.
  ghost predicate StopRecorded(p: Program, entry: nat, chain: seq<nat>, back: Option<nat>, conditions: set<nat>) {
    chain != [] ==>
      forall v :: DecidesIn(p, Last(chain), v) && Reaches(p, entry, Place(Value(v), chain, back)) ==> v in conditions
  }

  ghost predicate RoutesRecorded(p: Program, entry: nat, conditions: set<nat>) {
    forall chain, back :: IsStop(p, entry, chain, back) ==> StopRecorded(p, entry, chain, back, conditions)
  }

  lemma MoreStopRecorded(p: Program, entry: nat, chain: seq<nat>, back: Option<nat>, conditions: set<nat>, conditions': set<nat>)
    requires StopRecorded(p, entry, chain, back, conditions) && conditions <= conditions'
    ensures StopRecorded(p, entry, chain, back, conditions')
  {
    hide Reaches, DecidesIn;
  }

  lemma MoreRecorded(p: Program, entry: nat, conditions: set<nat>, conditions': set<nat>)
    requires RoutesRecorded(p, entry, conditions) && conditions <= conditions'
    ensures RoutesRecorded(p, entry, conditions')
  {
    hide StopRecorded;
    forall chain, back | IsStop(p, entry, chain, back) ensures StopRecorded(p, entry, chain, back, conditions') {
      MoreStopRecorded(p, entry, chain, back, conditions, conditions');
    }
  }

  /* The chains. */

  lemma ShorterChain(p: Program, entry: nat, chain: seq<nat>)
    requires OnlyChain(p, entry, chain) && |chain| > 1
    ensures OnlyChain(p, entry, chain[..|chain| - 1])
    ensures OnlyCall(p, entry, chain[|chain| - 2], chain[|chain| - 1])
  {
    var c := chain[..|chain| - 1];
    forall i, j | 0 <= i < j < |c| && j == i + 1 ensures OnlyCall(p, entry, c[i], c[j]) {
      assert OnlyCall(p, entry, chain[i], chain[j]);
    }
  }

  lemma OnlyIsCalled(p: Program, entry: nat, chain: seq<nat>, i: nat)
    requires OnlyChain(p, entry, chain) && i < |chain|
    ensures IsCalled(p, entry, chain[i])
  {
    hide IsCalled;
    var c := chain[..i + 1];
    forall j, k | 0 <= j < k < |c| && k == j + 1 ensures Calls(p, c[j], c[k]) {
      assert OnlyCall(p, entry, chain[j], chain[k]);
    }
    assert IsCalled(p, entry, Last(c)) by { ChainCalls(p, entry, c); }
  }

  lemma ChainCalls(p: Program, entry: nat, chain: seq<nat>)
    requires CallChain(p, entry, chain)
    ensures IsCalled(p, entry, Last(chain))
  {
  }

  // No function comes twice.
  lemma {:induction false} NotTwice(p: Program, entry: nat, chain: seq<nat>, i: nat, j: nat)
    requires OnlyChain(p, entry, chain) && i < j < |chain|
    ensures chain[i] != chain[j]
    decreases i
  {
    assert OnlyCall(p, entry, chain[j - 1], chain[j]);
    OnlyIsCalled(p, entry, chain, i);
    OnlyIsCalled(p, entry, chain, j - 1);
    hide IsCalled;
    if i > 0 {
      assert OnlyCall(p, entry, chain[i - 1], chain[i]);
      OnlyIsCalled(p, entry, chain, i - 1);
      NotTwice(p, entry, chain, i - 1, j - 1);
    }
  }

  /* Routes. */

  lemma RoutePrefix(p: Program, entry: nat, w: seq<Place>, n: nat)
    requires IsRoute(p, entry, w) && 0 < n <= |w|
    ensures LeadsTo(p, entry, w[..n], w[n - 1])
  {
    hide IsPlace, IsSourceIn, Moves;
    forall i, j | 0 <= i < j < n && j == i + 1 ensures Moves(p, w[..n][i], w[..n][j]) {
      assert Moves(p, w[i], w[j]);
    }
  }

  lemma RouteGoesOn(p: Program, entry: nat, a: Place, b: Place)
    requires Reaches(p, entry, a) && Moves(p, a, b) && IsPlace(p, entry, b)
    ensures Reaches(p, entry, b)
  {
    hide IsPlace, IsSourceIn, Moves;
    var w :| LeadsTo(p, entry, w, a);
    var w' := w + [b];
    forall i, j | 0 <= i < j < |w'| && j == i + 1 ensures Moves(p, w'[i], w'[j]) {
      if j < |w| {
        assert Moves(p, w[i], w[j]);
      }
    }
    assert LeadsTo(p, entry, w', b);
  }

  lemma ReachedIsPlace(p: Program, entry: nat, a: Place)
    requires Reaches(p, entry, a)
    ensures IsPlace(p, entry, a)
  {
    var w :| LeadsTo(p, entry, w, a);
  }

  // A place at which a route enters the function or comes back to it.
  ghost predicate Comes(p: Program, entry: nat, b: Place) {
    IsPlace(p, entry, b) && exists a :: Reaches(p, entry, a) && Moves(p, a, b) && !Stays(a, b)
  }

  lemma ComesIsReached(p: Program, entry: nat, b: Place)
    requires Comes(p, entry, b)
    ensures Reaches(p, entry, b)
  {
    hide Moves, Reaches, IsPlace;
    var a :| Reaches(p, entry, a) && Moves(p, a, b) && !Stays(a, b);
    RouteGoesOn(p, entry, a, b);
  }

  /* What is kept of them. */

  ghost predicate Holds(p: Program, entry: nat, chain: seq<nat>, back: Option<nat>, t: Taint) {
    forall n: Node :: Reaches(p, entry, Place(n, chain, back)) ==> t.Has(n)
  }

  ghost predicate HoldsEntered(p: Program, entry: nat, chain: seq<nat>, back: Option<nat>, t: Taint) {
    forall n: Node :: Comes(p, entry, Place(n, chain, back)) ==> t.Has(n)
  }

  lemma HeldIsEntered(p: Program, entry: nat, chain: seq<nat>, back: Option<nat>, t: Taint)
    requires Holds(p, entry, chain, back, t)
    ensures HoldsEntered(p, entry, chain, back, t)
  {
    hide Reaches, Comes;
    forall n: Node | Comes(p, entry, Place(n, chain, back)) ensures t.Has(n) {
      ComesIsReached(p, entry, Place(n, chain, back));
    }
  }

  // Nothing enters the entry.
  lemma NothingComes(p: Program, entry: nat, chain: seq<nat>, t: Taint)
    requires |chain| <= 1
    ensures HoldsEntered(p, entry, chain, None, t)
  {
    hide Reaches, IsPlace;
  }

  lemma LiesInIsNodeOf(p: Program, f: nat, n: Node)
    ensures LiesIn(p, f, n) <==> NodeOf(p, f, n)
  {
  }

  // Flooding the last function leads on from where the routes come in.
  lemma {:induction false} FloodHolds(p: Program, entry: nat, entered: Taint, flooded: Taint, w: seq<Place>, b: Place)
    requires LeadsTo(p, entry, w, b) && b.chain != []
    requires HoldsEntered(p, entry, b.chain, b.back, entered) && Flooded(p, Last(b.chain), entered, flooded)
    ensures flooded.Has(b.node)
    decreases |w|
  {
    var k, f := |w| - 1, Last(b.chain);
    hide Flooded, Comes, IsSourceIn, LiesIn, IsStop, Stays, Enters, GoesBack, IsReset, Undisturbed;
    assert IsPlace(p, entry, w[k]);
    if k == 0 {
      SourceIsFlooded(p, f, entered, flooded, b.node);
    } else {
      var a := w[k - 1];
      assert Moves(p, a, b);
      RoutePrefix(p, entry, w, k);
      assert w[..k][|w[..k]| - 1] == a;
      if Stays(a, b) {
        SamePlace(a, b);
        FloodHolds(p, entry, entered, flooded, w[..k], a);
        FloodGoesOn(p, f, entered, flooded, a.node, b.node);
      } else {
        assert Reaches(p, entry, a);
        assert Comes(p, entry, b) by { CanCome(p, entry, a, b); }
        assert b == Place(b.node, b.chain, b.back);
        EnteredIsFlooded(p, f, entered, flooded, b.node);
      }
    }
  }

  lemma SamePlace(a: Place, b: Place)
    requires Stays(a, b)
    ensures a.chain == b.chain && a.back == b.back
  {
  }

  lemma CanCome(p: Program, entry: nat, a: Place, b: Place)
    requires Reaches(p, entry, a) && Moves(p, a, b) && !Stays(a, b) && IsPlace(p, entry, b)
    ensures Comes(p, entry, b)
  {
  }

  ghost predicate Flooded(p: Program, f: nat, entered: Taint, flooded: Taint) {
    IsLeastFlood(p.Local(f).Arrows(), Taint(entered.vars + p.SourcesIn(f).vars, entered.values + p.SourcesIn(f).values).Nodes(),
                 Resets(p.resets), flooded.Nodes())
  }

  lemma SourceIsFlooded(p: Program, f: nat, entered: Taint, flooded: Taint, n: Node)
    requires Flooded(p, f, entered, flooded) && LiesIn(p, f, n) && IsSourceIn(p, f, n)
    ensures flooded.Has(n)
  {
    assert n in Taint(entered.vars + p.SourcesIn(f).vars, entered.values + p.SourcesIn(f).values).Nodes();
    assert n in flooded.Nodes();
  }

  lemma EnteredIsFlooded(p: Program, f: nat, entered: Taint, flooded: Taint, n: Node)
    requires Flooded(p, f, entered, flooded) && entered.Has(n)
    ensures flooded.Has(n)
  {
    assert n in Taint(entered.vars + p.SourcesIn(f).vars, entered.values + p.SourcesIn(f).values).Nodes();
    assert n in flooded.Nodes();
  }

  lemma FloodGoesOn(p: Program, f: nat, entered: Taint, flooded: Taint, m: Node, n: Node)
    requires Flooded(p, f, entered, flooded) && flooded.Has(m) && !IsReset(p, m)
    requires LiesIn(p, f, m) && LiesIn(p, f, n) && p.edges.Has(m, n)
    ensures flooded.Has(n)
  {
    LiesInIsNodeOf(p, f, m);
    LiesInIsNodeOf(p, f, n);
    LocalArrows(p, f, m, n);
    assert (m, n) in p.Local(f).Arrows() && m in flooded.Nodes();
    assert n in flooded.Nodes();
  }

  lemma FloodHoldsAll(p: Program, entry: nat, chain: seq<nat>, back: Option<nat>, entered: Taint, flooded: Taint)
    requires chain != [] && HoldsEntered(p, entry, chain, back, entered) && Flooded(p, Last(chain), entered, flooded)
    ensures Holds(p, entry, chain, back, flooded)
  {
    hide HoldsEntered, Flooded, LeadsTo;
    forall n: Node | Reaches(p, entry, Place(n, chain, back)) ensures flooded.Has(n) {
      var w :| LeadsTo(p, entry, w, Place(n, chain, back));
      FloodHolds(p, entry, entered, flooded, w, Place(n, chain, back));
    }
  }

  /* Crossing from one function into another. */

  // A node that no reset variable flows to is not lost, whatever crosses.
  lemma {:induction false} CrossKeeps(p: Program, to: nat, order: seq<Node>, t: Taint, n: Node)
    requires t.Has(n) && (Undisturbed(p, n) || !LiesIn(p, to, n))
    ensures CrossAll(p, to, order, t).Has(n)
  {
    if order != [] {
      CrossKeeps(p, to, order[..|order| - 1], t, n);
      hide CrossAll;
      OneKeeps(p, to, order[|order| - 1], CrossAll(p, to, order[..|order| - 1], t), n);
      CrossLast(p, to, order, t);
    }
  }

  lemma CrossLast(p: Program, to: nat, order: seq<Node>, t: Taint)
    requires order != []
    ensures CrossAll(p, to, order, t) == CrossOne(p, to, order[|order| - 1], CrossAll(p, to, order[..|order| - 1], t))
  {
  }

  lemma OneKeeps(p: Program, to: nat, s: Node, t: Taint, n: Node)
    requires t.Has(n) && (Undisturbed(p, n) || !LiesIn(p, to, n))
    ensures CrossOne(p, to, s, t).Has(n)
  {
    LiesInIsNodeOf(p, to, n);
    if s.Var? && s.id in p.resets && Undisturbed(p, n) {
      assert !p.edges.Has(s, n);
    }
  }

  // What a tainted node of the other function flows to becomes tainted.
  lemma {:induction false} CrossEnters(p: Program, to: nat, order: seq<Node>, t: Taint, m: Node, n: Node)
    requires m in order && t.Has(m) && !IsReset(p, m) && !LiesIn(p, to, m)
    requires p.edges.Has(m, n) && LiesIn(p, to, n) && Undisturbed(p, n)
    ensures CrossAll(p, to, order, t).Has(n)
  {
    var init, s := order[..|order| - 1], order[|order| - 1];
    CrossLast(p, to, order, t);
    hide CrossAll;
    if m in init {
      CrossEnters(p, to, init, t, m, n);
      OneKeeps(p, to, s, CrossAll(p, to, init, t), n);
    } else {
      assert s == m;
      CrossKeeps(p, to, init, t, m);
      LiesInIsNodeOf(p, to, n);
    }
  }

  // A step of a route into another function is one that crossing takes.
  lemma StepCrosses(p: Program, entry: nat, order: seq<Node>, t: Taint, a: Place, b: Place)
    requires Reaches(p, entry, a) && t.Has(a.node) && Moves(p, a, b) && !Stays(a, b) && IsPlace(p, entry, b)
    requires a.chain != [] && IsOrderOf(p, Last(a.chain), order) && Disjoint(p, Last(b.chain), Last(a.chain))
    ensures CrossAll(p, Last(b.chain), order, t).Has(b.node)
  {
    hide CrossAll, Reaches;
    ReachedIsPlace(p, entry, a);
    LiesInIsNodeOf(p, Last(a.chain), a.node);
    LiesInIsNodeOf(p, Last(b.chain), a.node);
    CrossEnters(p, Last(b.chain), order, t, a.node, b.node);
  }

  // Entering the chain's last function from the one before.
  lemma CallHolds(p: Program, entry: nat, chain: seq<nat>, order: seq<Node>, t: Taint)
    requires |chain| > 1 && var c, f := chain[..|chain| - 1], Last(chain);
      && (forall back :: IsStop(p, entry, c, back) && (back.Some? ==> Before(p, Last(c), back.value, f)) ==> Holds(p, entry, c, back, t))
      && IsOrderOf(p, Last(c), order) && Disjoint(p, f, Last(c))
    ensures HoldsEntered(p, entry, chain, None, CrossAll(p, Last(chain), order, t))
  {
    hide CrossAll, Reaches, Undisturbed, Before, LiesIn, IsStop, IsOrderOf, Disjoint;
    forall n: Node | Comes(p, entry, Place(n, chain, None)) ensures CrossAll(p, Last(chain), order, t).Has(n) {
      var b := Place(n, chain, None);
      var a :| Reaches(p, entry, a) && Moves(p, a, b) && !Stays(a, b);
      ReachedIsPlace(p, entry, a);
      assert Enters(p, a, b) && a == Place(a.node, a.chain, a.back);
      StepCrosses(p, entry, order, t, a, b);
    }
  }

  // Coming back to the chain's last function from "g".
  lemma ReturnHolds(p: Program, entry: nat, chain: seq<nat>, g: nat, order: seq<Node>, t: Taint)
    requires chain != [] && IsOrderOf(p, g, order) && Disjoint(p, Last(chain), g)
    requires forall back :: IsStop(p, entry, chain + [g], back) ==> Holds(p, entry, chain + [g], back, t)
    ensures HoldsEntered(p, entry, chain, Some(g), CrossAll(p, Last(chain), order, t))
  {
    hide CrossAll, Reaches, Undisturbed, Before, LiesIn, IsStop, IsOrderOf, Disjoint;
    forall n: Node | Comes(p, entry, Place(n, chain, Some(g))) ensures CrossAll(p, Last(chain), order, t).Has(n) {
      var b := Place(n, chain, Some(g));
      var a :| Reaches(p, entry, a) && Moves(p, a, b) && !Stays(a, b);
      ReachedIsPlace(p, entry, a);
      assert GoesBack(a, b) && a.chain == chain + [g] && a == Place(a.node, a.chain, a.back);
      StepCrosses(p, entry, order, t, a, b);
    }
  }

  // Whatever crosses, what has come in stays.
  lemma CrossingHolds(p: Program, entry: nat, chain: seq<nat>, back: Option<nat>, to: nat, order: seq<Node>, t: Taint)
    requires Holds(p, entry, chain, back, t)
    ensures HoldsEntered(p, entry, chain, back, CrossAll(p, to, order, t))
  {
    hide CrossAll, Reaches, IsPlace;
    forall n: Node | Comes(p, entry, Place(n, chain, back)) ensures CrossAll(p, to, order, t).Has(n) {
      var b := Place(n, chain, back);
      ComesIsReached(p, entry, b);
      var a :| Reaches(p, entry, a) && Moves(p, a, b) && !Stays(a, b);
      CrossKeeps(p, to, order, t, n);
    }
  }

  // What happens in another function does not touch the chain's last one.
  lemma ElsewhereHolds(p: Program, entry: nat, chain: seq<nat>, back: Option<nat>, n: nat, prev: nat, forget: bool, order: seq<Node>,
                       t: Taint, entered: Taint, flooded: Taint, t': Taint)
    requires Holds(p, entry, chain, back, t) && chain != [] && Disjoint(p, Last(chain), n) && Flooded(p, n, entered, flooded)
    requires entered == t || entered == CrossAll(p, n, order, t)
    requires forget ==> Disjoint(p, Last(chain), prev)
    requires t' == if forget then Taint(flooded.vars - p.Vars(prev), flooded.values - p.Values(prev)) else flooded
    ensures Holds(p, entry, chain, back, t')
  {
    hide CrossAll, Reaches, Flooded;
    forall m: Node | Reaches(p, entry, Place(m, chain, back)) ensures t'.Has(m) {
      ReachedIsPlace(p, entry, Place(m, chain, back));
      LiesInIsNodeOf(p, Last(chain), m);
      LiesInIsNodeOf(p, n, m);
      if entered != t {
        CrossKeeps(p, n, order, t, m);
      }
      EnteredIsFlooded(p, n, entered, flooded, m);
    }
  }

  lemma ForgetHolds(p: Program, entry: nat, chain: seq<nat>, back: Option<nat>, prev: nat, t: Taint, t': Taint)
    requires Holds(p, entry, chain, back, t) && chain != [] && Disjoint(p, Last(chain), prev)
    requires t' == Taint(t.vars - p.Vars(prev), t.values - p.Values(prev))
    ensures Holds(p, entry, chain, back, t')
  {
    hide Reaches;
    forall m: Node | Reaches(p, entry, Place(m, chain, back)) ensures t'.Has(m) {
      ReachedIsPlace(p, entry, Place(m, chain, back));
      LiesInIsNodeOf(p, Last(chain), m);
    }
  }

  lemma HeldIsRecorded(p: Program, entry: nat, chain: seq<nat>, back: Option<nat>, flooded: Taint, conditions: set<nat>)
    requires chain != [] && Holds(p, entry, chain, back, flooded)
    requires forall v :: p.IsCondOf(Last(chain), v) && v in flooded.values ==> v in conditions
    ensures StopRecorded(p, entry, chain, back, conditions)
  {
    hide Reaches;
    var f := Last(chain);
    forall v | DecidesIn(p, f, v) && Reaches(p, entry, Place(Value(v), chain, back)) ensures v in conditions {
      assert flooded.Has(Value(v));
      var c :| f in p.callSites && c in p.callSites[f] && c in p.condsOf && v in p.condsOf[c];
      assert c in p.Calls(f) && v in p.Conds(c);
    }
  }
}
