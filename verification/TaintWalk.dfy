// The context-sensitive computation: a walk over the call graph that carries taint from caller to
// callee and back, and forgets a callee's taint once it has returned.
module TaintWalk {
  import opened TaintGraph
  import opened TaintFlood
  import opened TaintSteps
  import opened TaintCalls
  import opened TaintRoutes
  import opened TaintChains
  import opened TaintContexts

  /* The walk. */

  // A call site of one of the functions depends on the value.
  ghost predicate DecidesAny(p: Program, fs: set<nat>, v: nat) {
    exists f :: f in fs && p.IsCondOf(f, v)
  }

  // Every recorded condition is one of a function seen so far that the context-insensitive
  // computation finds, and every function seen so far has had the conditions recorded that its own
  // sources taint.
  ghost predicate Recorded(p: Program, seen: set<nat>, conditions: set<nat>) {
    && (forall v :: v in conditions ==> p.Insensitive(Value(v)) && DecidesAny(p, seen, v))
    && (forall f, v :: f in seen && p.IsCondOf(f, v) && p.LocallyTainted(f, Value(v)) ==> v in conditions)
  }

  lemma MoreDecide(p: Program, fs: set<nat>, fs': set<nat>, v: nat)
    requires DecidesAny(p, fs, v) && fs <= fs'
    ensures DecidesAny(p, fs', v)
  {
    var f :| f in fs && p.IsCondOf(f, v);
    assert f in fs';
  }

  lemma LocalTaintIsFlooded(p: Program, f: nat, t: Taint, t': Taint, v: nat)
    requires IsLeastFlood(p.Local(f).Arrows(), Taint(t.vars + p.SourcesIn(f).vars, t.values + p.SourcesIn(f).values).Nodes(),
                          Resets(p.resets), t'.Nodes())
    requires p.LocallyTainted(f, Value(v))
    ensures v in t'.values
  {
    var t0 := Taint(t.vars + p.SourcesIn(f).vars, t.values + p.SourcesIn(f).values);
    assert p.SourcesIn(f).Nodes() <= t0.Nodes();
    assert Floods(p.Local(f).Arrows(), p.SourcesIn(f).Nodes(), Resets(p.resets), t'.Nodes());
    assert Value(v) in t'.Nodes();
  }

  // Flood one function and record its conditions.
  method VisitFunction(p: Program, f: nat, t: Taint, ghost seen: set<nat>, conditions: set<nat>)
    returns (t': Taint, conditions': set<nat>)
    requires Sound(p, t) && Recorded(p, seen, conditions)
    ensures IsLeastFlood(p.Local(f).Arrows(), Taint(t.vars + p.SourcesIn(f).vars, t.values + p.SourcesIn(f).values).Nodes(),
                         Resets(p.resets), t'.Nodes())
    ensures Sound(p, t') && Recorded(p, seen + {f}, conditions')
    ensures forall v :: v in conditions' <==> v in conditions || (p.IsCondOf(f, v) && v in t'.values)
  {
    t' := FloodFunction(p, f, t);
    conditions' := RecordConditions(p, f, t', conditions);
    forall v | p.IsCondOf(f, v) && p.LocallyTainted(f, Value(v)) ensures v in conditions' {
      LocalTaintIsFlooded(p, f, t, t', v);
    }
    forall v | v in conditions' ensures p.Insensitive(Value(v)) && DecidesAny(p, seen + {f}, v) {
      assert v in t'.values ==> t'.Has(Value(v));
      if v in conditions {
        MoreDecide(p, seen, seen + {f}, v);
      }
    }
  }

  // The calls the walk has not taken yet.
  ghost function Untaken(p: Program, visited: map<nat, set<nat>>): set<(nat, nat)> {
    set e | e in AllCalls(p) && e.1 !in VisitedFrom(visited, e.0)
  }

  ghost function AllCalls(p: Program): set<(nat, nat)> {
    set n, c | n in p.callees && c in p.callees[n] :: (n, c)
  }

  // The first of the callees that has not been visited and stands for a function.
  ghost predicate IsNextAt(p: Program, cs: seq<nat>, visited: set<nat>, i: int) {
    && 0 <= i < |cs| && cs[i] in p.defined && cs[i] !in visited
    && forall j :: 0 <= j < i ==> cs[j] !in p.defined || cs[j] in visited
  }

  // The first callee that has not been visited from "n" and stands for a function is next; those
  // passed over on the way count as visited too.
  method NextCallee(p: Program, n: nat, visited: map<nat, set<nat>>)
    returns (found: bool, pushed: bool, callee: nat, visited': map<nat, set<nat>>)
    ensures found <==> exists c :: c in p.Callees(n) && c !in VisitedFrom(visited, n)
    ensures visited'.Keys <= visited.Keys + {n}
    ensures forall m :: m != n ==> VisitedFrom(visited', m) == VisitedFrom(visited, m)
    ensures VisitedFrom(visited, n) <= VisitedFrom(visited', n)
    ensures forall c :: c in VisitedFrom(visited', n) && c !in VisitedFrom(visited, n) ==>
      c in p.Callees(n) && (c in p.defined ==> pushed && c == callee)
    ensures found <==> VisitedFrom(visited', n) != VisitedFrom(visited, n)
    ensures pushed ==> found && callee in p.Callees(n) && callee in p.defined
    // It is the first one, and it is marked.
    ensures pushed ==> callee !in VisitedFrom(visited, n) && callee in VisitedFrom(visited', n)
    ensures pushed ==> exists i :: IsNextAt(p, p.Callees(n), VisitedFrom(visited, n), i) && p.Callees(n)[i] == callee
  {
    found, pushed, callee, visited' := false, false, 0, visited;
    var cs := p.Callees(n);
    var i := 0;
    while i < |cs|
      invariant 0 <= i <= |cs|
      invariant !pushed
      invariant visited'.Keys <= visited.Keys + {n}
      invariant forall m :: m != n ==> VisitedFrom(visited', m) == VisitedFrom(visited, m)
      invariant VisitedFrom(visited, n) <= VisitedFrom(visited', n)
      invariant forall c :: c in VisitedFrom(visited', n) && c !in VisitedFrom(visited, n) ==> c in cs && c !in p.defined
      invariant found <==> VisitedFrom(visited', n) != VisitedFrom(visited, n)
      invariant found <==> exists c :: c in cs[..i] && c !in VisitedFrom(visited, n)
      invariant forall j :: 0 <= j < i ==> cs[j] !in p.defined || cs[j] in VisitedFrom(visited, n)
    {
      assert cs[..i + 1] == cs[..i] + [cs[i]];
      if cs[i] !in VisitedFrom(visited', n) {
        found := true;
        visited' := visited'[n := VisitedFrom(visited', n) + {cs[i]}];
        if cs[i] in p.defined {
          pushed, callee := true, cs[i];
          assert IsNextAt(p, cs, VisitedFrom(visited, n), i);
          return;
        }
      }
      i := i + 1;
    }
    assert cs[..i] == cs;
  }

  lemma TakingShrinks(p: Program, n: nat, visited: map<nat, set<nat>>, visited': map<nat, set<nat>>)
    requires forall m :: VisitedFrom(visited, m) <= VisitedFrom(visited', m)
    requires VisitedFrom(visited', n) != VisitedFrom(visited, n)
    requires forall c :: c in VisitedFrom(visited', n) && c !in VisitedFrom(visited, n) ==> c in p.Callees(n)
    ensures Untaken(p, visited') < Untaken(p, visited)
  {
    assert exists c :: c in VisitedFrom(visited', n) && c !in VisitedFrom(visited, n);
    var c :| c in VisitedFrom(visited', n) && c !in VisitedFrom(visited, n);
    assert n in p.callees && c in p.callees[n];
    assert (n, c) in AllCalls(p);
    assert (n, c) in Untaken(p, visited) && (n, c) !in Untaken(p, visited');
  }

  lemma SameUntaken(p: Program, visited: map<nat, set<nat>>, visited': map<nat, set<nat>>)
    requires forall m :: VisitedFrom(visited, m) == VisitedFrom(visited', m)
    ensures Untaken(p, visited') == Untaken(p, visited)
  {
  }

  // Every call from a function seen leads to a function seen, unless the function still waits on
  // the stack and the call has not been taken.
  ghost predicate CallsFollowed(p: Program, stack: seq<nat>, seen: set<nat>, visited: map<nat, set<nat>>) {
    && (forall n, c :: n in seen && n !in stack && c in p.Callees(n) ==> c in VisitedFrom(visited, n))
    && (forall n, c :: c in VisitedFrom(visited, n) && c in p.defined ==> c in seen || c in stack)
  }

  // One round of the walk: the top is seen, its next callee is pushed or it leaves the stack.
  lemma RoundFollows(p: Program, stack: seq<nat>, seen: set<nat>, visited: map<nat, set<nat>>, n: nat,
                     found: bool, pushed: bool, callee: nat, visited': map<nat, set<nat>>, stack': seq<nat>)
    requires CallsFollowed(p, stack, seen, visited) && stack != [] && n == stack[|stack| - 1]
    requires !found ==> forall c :: c in p.Callees(n) ==> c in VisitedFrom(visited, n)
    requires forall m :: VisitedFrom(visited, m) <= VisitedFrom(visited', m)
    requires forall m :: m != n ==> VisitedFrom(visited', m) == VisitedFrom(visited, m)
    requires forall c :: c in VisitedFrom(visited', n) && c !in VisitedFrom(visited, n) ==> (c in p.defined ==> pushed && c == callee)
    requires pushed ==> found
    requires stack' == if pushed then stack + [callee] else if found then stack else stack[..|stack| - 1]
    ensures CallsFollowed(p, stack', seen + {n}, visited')
  {
    forall m | m in stack ensures m in stack' || m == n {
      var i :| 0 <= i < |stack| && stack[i] == m;
      if i < |stack| - 1 {
        assert stack'[i] == m;
      }
    }
    if !found {
      assert forall m :: m in stack' ==> m in stack;
    } else {
      assert n in stack';
    }
  }

  // All functions that calls lead to from the entry.
  ghost predicate ClosedUnderCalls(p: Program, seen: set<nat>) {
    forall n, c :: n in seen && c in p.Callees(n) && c in p.defined ==> c in seen
  }

  // None of the functions is there without a call that leads to it.
  ghost predicate OnlyCalled(p: Program, from: set<nat>, fs: set<nat>) {
    forall s: set<nat> :: ClosedUnderCalls(p, s) && from <= s ==> fs <= s
  }

  lemma CalleeIsCalled(p: Program, from: set<nat>, stack: seq<nat>, walked: set<nat>, n: nat, callee: nat)
    requires OnlyCalled(p, from, walked + OnStack(stack)) && n in stack
    requires callee in p.Callees(n) && callee in p.defined
    ensures OnlyCalled(p, from, walked + {n} + OnStack(stack + [callee]))
  {
    hide Program.Callees;
    forall s: set<nat> | ClosedUnderCalls(p, s) && from <= s ensures walked + {n} + OnStack(stack + [callee]) <= s {
      assert n in OnStack(stack);
    }
  }

  lemma FewerAreCalled(p: Program, from: set<nat>, fs: set<nat>, fs': set<nat>)
    requires OnlyCalled(p, from, fs) && fs' <= fs
    ensures OnlyCalled(p, from, fs')
  {
  }

  // What one round of the walk does to the taint: the function on top takes over from the one
  // before ("entered"), is flooded ("flooded") and has its tainted conditions recorded, and a callee
  // that has returned is forgotten.
  method CarryTaint(p: Program, stack: seq<nat>, hasPrev: bool, goingDown: bool, prev: nat, t: Taint, ghost seen: set<nat>,
                    conditions: set<nat>, ghost t0: Taint)
    returns (t': Taint, conditions': set<nat>, ghost order: seq<Node>, ghost flooded: Taint)
    requires stack != [] && Sound(p, t) && Recorded(p, seen, conditions)
    requires hasPrev && goingDown ==> prev in stack
    ensures Sound(p, t') && Recorded(p, seen + {stack[|stack| - 1]}, conditions')
    ensures SourcesAreNodes(p) && CarriedBy(p, OnStack(stack) + (if hasPrev then {prev} else {}), t0, t) ==>
              CarriedBy(p, OnStack(stack), t0, t')
    ensures hasPrev ==> IsOrderOf(p, prev, order)
    ensures var n := stack[|stack| - 1];
            var entered := if hasPrev then CrossAll(p, n, order, t) else t;
            IsLeastFlood(p.Local(n).Arrows(), Taint(entered.vars + p.SourcesIn(n).vars, entered.values + p.SourcesIn(n).values).Nodes(),
                         Resets(p.resets), flooded.Nodes())
    ensures t' == if hasPrev && !goingDown then Taint(flooded.vars - p.Vars(prev), flooded.values - p.Values(prev)) else flooded
    ensures forall v :: v in conditions' <==> v in conditions || (p.IsCondOf(stack[|stack| - 1], v) && v in flooded.values)
    ensures AllDisjoint(p) && (hasPrev && !goingDown ==> prev != stack[|stack| - 1]) ==> HoldsLocal(p, stack[|stack| - 1], t')
    ensures AllDisjoint(p) && hasPrev && prev != stack[|stack| - 1] && HoldsLocal(p, prev, t) ==>
              CrossRecorded(p, prev, stack[|stack| - 1], conditions')
  {
    hide Sound, Recorded, CarriedBy, SourcesAreNodes, IsLeastFlood, SameOutside, Carried, CrossAll, IsOrderOf, HoldsLocal, CrossRecorded;
    var n := stack[|stack| - 1];
    ghost var fs := OnStack(stack) + (if hasPrev then {prev} else {});
    assert n in fs;
    t', order := t, [];
    if hasPrev {
      t', order := FloodFromFunction(p, n, prev, t);
      if CarriedBy(p, fs, t0, t) {
        FloodFromCarried(p, n, fs, t0, t, t');
      }
    }
    ghost var entered := t';
    t', conditions' := VisitFunction(p, n, t', seen, conditions);
    flooded := t';
    FloodHoldsLocal(p, n, entered, flooded);
    if SourcesAreNodes(p) && CarriedBy(p, fs, t0, t) {
      FloodFunctionCarried(p, n, fs, t0, entered, t');
    }
    if AllDisjoint(p) && hasPrev && prev != n && HoldsLocal(p, prev, t) {
      assert Disjoint(p, n, prev);
      CrossingIsRecorded(p, prev, n, t, entered, flooded, conditions');
    }
    if hasPrev && !goingDown {
      t' := Without(p, t', p.Vars(prev), p.Values(prev));
      if CarriedBy(p, fs, t0, flooded) {
        ForgetCarried(p, prev, OnStack(stack), t0, flooded, t');
      }
      if AllDisjoint(p) && prev != n {
        assert Disjoint(p, n, prev);
        ForgetHoldsLocal(p, n, prev, flooded, t');
      }
    }
    assert !hasPrev || goingDown ==> fs == OnStack(stack);
  }

  // The functions on the stack call each other in order.
  ghost predicate IsChain(p: Program, stack: seq<nat>) {
    forall i, j :: 0 <= i < j < |stack| && j == i + 1 ==> stack[j] in p.Callees(stack[i])
  }

  // The function before is a callee of the one on top that has just returned.
  ghost predicate Returned(p: Program, stack: seq<nat>, hasPrev: bool, goingDown: bool, prev: nat) {
    hasPrev && !goingDown && stack != [] ==> prev in p.Callees(stack[|stack| - 1])
  }

  // Between two functions that do not call themselves, with nodes of their own: what either passes
  // to the other by a call or its return has been recorded.
  ghost predicate CallsRecorded(p: Program, seen: set<nat>, conditions: set<nat>) {
    AllDisjoint(p) ==>
      forall f, g :: f in seen && g in p.Callees(f) && Plain(p, f, g) ==> CrossRecorded(p, f, g, conditions) && CrossRecorded(p, g, f, conditions)
  }

  // The whole state of the walk as far as taint across calls goes.
  ghost predicate Crossing(p: Program, stack: seq<nat>, visited: map<nat, set<nat>>, hasPrev: bool, goingDown: bool, prev: nat,
                           t: Taint, conditions: set<nat>) {
    && IsChain(p, stack) && Returned(p, stack, hasPrev, goingDown, prev)
    && (AllDisjoint(p) ==>
          && Crossed(p, visited, stack, hasPrev, goingDown, prev, conditions)
          && (hasPrev && prev !in p.Callees(prev) ==> HoldsLocal(p, prev, t)))
  }

  lemma RoundCrosses(p: Program, stack: seq<nat>, visited: map<nat, set<nat>>, hasPrev: bool, goingDown: bool, prev: nat,
                     t: Taint, conditions: set<nat>, n: nat, found: bool, pushed: bool, callee: nat,
                     visited': map<nat, set<nat>>, stack': seq<nat>, t': Taint, conditions': set<nat>)
    requires Crossing(p, stack, visited, hasPrev, goingDown, prev, t, conditions)
    requires stack != [] && n == stack[|stack| - 1] && conditions <= conditions'
    requires AllDisjoint(p) && (hasPrev && !goingDown ==> prev != n) ==> HoldsLocal(p, n, t')
    requires AllDisjoint(p) && hasPrev && prev != n && HoldsLocal(p, prev, t) ==> CrossRecorded(p, prev, n, conditions')
    requires forall m :: m != n ==> VisitedFrom(visited', m) == VisitedFrom(visited, m)
    requires forall c :: c in VisitedFrom(visited', n) && c !in VisitedFrom(visited, n) ==> (c in p.defined ==> pushed && c == callee)
    requires pushed ==> found && callee in p.Callees(n)
    requires stack' == if pushed then stack + [callee] else if found then stack else stack[..|stack| - 1]
    ensures Crossing(p, stack', visited', true, found, n, t', conditions')
  {
    hide HoldsLocal, CrossRecorded, Program.Callees, CrossedAt, Plain;
    if AllDisjoint(p) {
      forall f, g | g in VisitedFrom(visited', f) && Plain(p, f, g) ensures CrossedAt(p, f, g, stack', true, found, n, conditions') {
        PlainIsDefined(p, f, g);
        RoundCrossesAt(p, f, g, stack, hasPrev, goingDown, prev, conditions, n, found, pushed, callee, stack', conditions');
      }
    }
  }

  lemma PlainIsDefined(p: Program, f: nat, g: nat)
    requires Plain(p, f, g)
    ensures g in p.defined
  {
  }

  // At the end all calls have been crossed both ways.
  lemma EndCrossed(p: Program, visited: map<nat, set<nat>>, hasPrev: bool, goingDown: bool, prev: nat, t: Taint,
                   walked: set<nat>, conditions: set<nat>)
    requires Crossing(p, [], visited, hasPrev, goingDown, prev, t, conditions) && CallsFollowed(p, [], walked, visited)
    ensures CallsRecorded(p, walked, conditions)
  {
    hide CrossRecorded, HoldsLocal;
    if AllDisjoint(p) {
      forall f, g | f in walked && g in p.Callees(f) && Plain(p, f, g)
        ensures CrossRecorded(p, f, g, conditions) && CrossRecorded(p, g, f, conditions)
      {
        assert g in VisitedFrom(visited, f);
        assert CrossedAt(p, f, g, [], hasPrev, goingDown, prev, conditions);
      }
    }
  }

  lemma JoinRecorded(p: Program, seen0: set<nat>, walked: set<nat>, conditions0: set<nat>, conditions: set<nat>)
    requires CallsRecorded(p, seen0, conditions0) && conditions0 <= conditions && CallsRecorded(p, walked, conditions)
    ensures CallsRecorded(p, seen0 + walked, conditions)
  {
    hide CrossRecorded, Plain, AllDisjoint;
    if AllDisjoint(p) {
      forall f, g | f in seen0 && g in p.Callees(f) && Plain(p, f, g)
        ensures CrossRecorded(p, f, g, conditions) && CrossRecorded(p, g, f, conditions)
      {
        MoreConditions(p, f, g, conditions0, conditions);
        MoreConditions(p, g, f, conditions0, conditions);
      }
    }
  }

  lemma StartCrossing(p: Program, entry: nat, goingDown: bool, prev: nat, t: Taint, conditions: set<nat>)
    ensures Crossing(p, [entry], map[], false, goingDown, prev, t, conditions)
  {
  }

  // What a round does to the stage of the walk.
  lemma RoundIsRound(p: Program, s: Stage, s': Stage, n: nat, found: bool, pushed: bool, callee: nat)
    requires s.stack != [] && n == s.stack[|s.stack| - 1] && s'.walked == s.walked + {n}
    requires s'.hasPrev && s'.prev == n && s'.goingDown == found && (pushed ==> found)
    requires s'.stack == if pushed then s.stack + [callee] else if found then s.stack else s.stack[..|s.stack| - 1]
    requires pushed ==> callee in p.Callees(n) && callee !in VisitedFrom(s.visited, n) && callee in VisitedFrom(s'.visited, n)
    requires pushed ==> exists i :: IsNextAt(p, p.Callees(n), VisitedFrom(s.visited, n), i) && p.Callees(n)[i] == callee
    requires forall m :: m != n ==> VisitedFrom(s'.visited, m) == VisitedFrom(s.visited, m)
    requires VisitedFrom(s.visited, n) <= VisitedFrom(s'.visited, n)
    requires forall c :: c in VisitedFrom(s'.visited, n) && c !in VisitedFrom(s.visited, n) ==> (c in p.defined ==> pushed && c == callee)
    ensures RoundMoves(p, s, s', n, found, pushed, callee) && RoundMarks(p, s, s', n, pushed, callee)
  {
    if pushed {
      NextIsFirst(p, n, s.visited, callee);
    }
  }

  // Callees called before the one that is next have been visited.
  lemma NextIsFirst(p: Program, n: nat, visited: map<nat, set<nat>>, callee: nat)
    requires exists i :: IsNextAt(p, p.Callees(n), VisitedFrom(visited, n), i) && p.Callees(n)[i] == callee
    ensures forall g :: Before(p, n, g, callee) && g in p.defined ==> g in VisitedFrom(visited, n)
  {
    var cs := p.Callees(n);
    var i :| IsNextAt(p, cs, VisitedFrom(visited, n), i) && cs[i] == callee;
    forall g | Before(p, n, g, callee) && g in p.defined ensures g in VisitedFrom(visited, n) {
      var j :| 0 <= j < |cs| && cs[j] == g && callee !in cs[..j + 1];
      assert forall k :: 0 <= k <= j ==> cs[..j + 1][k] == cs[k];
    }
  }

  lemma FollowedIsTaken(p: Program, s: Stage)
    requires CallsFollowed(p, s.stack, s.walked, s.visited)
    ensures AllTaken(p, s)
  {
    forall f, g | f in s.walked && f !in s.stack && HasCallee(p, f, g) ensures g in VisitedFrom(s.visited, f) {
      assert g in p.Callees(f);
    }
  }

  lemma ChainsAtEnd(p: Program, entry: nat, s: Stage)
    requires AllDisjoint(p) ==> ChainsAt(p, entry, s)
    requires s.stack == [] && entry in s.walked && CallsFollowed(p, [], s.walked, s.visited) && s.prev == entry
    ensures AllDisjoint(p) ==> RoutesRecorded(p, entry, s.conditions)
  {
    hide ChainsAt, RoutesRecorded, AllDisjoint, AllTaken;
    FollowedIsTaken(p, s);
    if AllDisjoint(p) {
      EndChains(p, entry, s);
    }
  }

  // What every round of the walk from an entry keeps.
  ghost predicate WalkInv(p: Program, entry: nat, entries: set<nat>, t0: Taint, conditions0: set<nat>, seen0: set<nat>, s: Stage) {
    && Sound(p, s.t) && Recorded(p, seen0 + s.walked, s.conditions) && conditions0 <= s.conditions
    && OnlyCalled(p, {entry}, s.walked + OnStack(s.stack))
    && CallsFollowed(p, s.stack, s.walked, s.visited)
    && Crossing(p, s.stack, s.visited, s.hasPrev, s.goingDown, s.prev, s.t, s.conditions)
    && (AllDisjoint(p) ==> ChainsAt(p, entry, s))
    && (ContextsGiven(p, entry, entries, t0, conditions0) ==> ContextsAt(p, entry, entries, s))
    && (s.stack == [entry] || entry in s.walked) && (s.stack != [] ==> CallChain(p, entry, s.stack))
    && (s.hasPrev && s.goingDown ==> s.prev in s.stack) && (s.stack == [] ==> s.hasPrev && s.prev == entry)
    && (SourcesAreNodes(p) ==> CarriedBy(p, OnStack(s.stack) + (if s.hasPrev then {s.prev} else {}), t0, s.t))
  }

  // What the precision of the walk rests on: functions apart, no recursion, and only taint and
  // conditions in context so far.
  ghost predicate ContextsGiven(p: Program, entry: nat, entries: set<nat>, t0: Taint, conditions0: set<nat>) {
    Separate(p) && entry in entries && LeftBehind(p, entries, t0) && AllInContext(p, entries, conditions0)
  }

  lemma GivenMeans(p: Program, entry: nat, entries: set<nat>, t0: Taint, conditions0: set<nat>)
    requires ContextsGiven(p, entry, entries, t0, conditions0)
    ensures Separate(p) && SourcesAreNodes(p) && entry in entries && LeftBehind(p, entries, t0)
  {
    IsSeparate(p);
  }

  lemma StartWalk(p: Program, entry: nat, entries: set<nat>, t0: Taint, conditions0: set<nat>, seen0: set<nat>, s: Stage)
    requires Sound(p, t0) && Recorded(p, seen0, conditions0)
    requires s.stack == [entry] && s.visited == map[] && s.walked == {} && !s.hasPrev && s.t == t0 && s.conditions == conditions0
    ensures WalkInv(p, entry, entries, t0, conditions0, seen0, s)
  {
    hide Sound, Recorded, SourcesAreNodes, Crossing, AllDisjoint, ChainsAt, ContextsAt, Separate, LeftBehind, AllInContext;
    assert OnlyCalled(p, {entry}, {} + OnStack([entry]));
    StartCrossing(p, entry, s.goingDown, s.prev, s.t, s.conditions);
    StartChains(p, entry, s);
    if ContextsGiven(p, entry, entries, t0, conditions0) {
      StartContexts(p, entry, entries, t0, s);
    }
    assert seen0 + {} == seen0;
  }

  // The functions on the stack call each other, after a round.
  lemma RoundCalls(p: Program, entry: nat, s: Stage, s': Stage, n: nat, found: bool, pushed: bool, callee: nat)
    requires s.stack != [] && CallChain(p, entry, s.stack) && n == s.stack[|s.stack| - 1] && (pushed ==> Calls(p, n, callee))
    requires s'.stack == if pushed then s.stack + [callee] else if found then s.stack else s.stack[..|s.stack| - 1]
    ensures s.stack[0] == entry && IsCalled(p, entry, n) && (s'.stack != [] ==> CallChain(p, entry, s'.stack))
  {
    hide Calls, IsCalled;
    ChainCalls(p, entry, s.stack);
    if s'.stack != [] {
      forall i, j | 0 <= i < j < |s'.stack| && j == i + 1 ensures Calls(p, s'.stack[i], s'.stack[j]) {
        if j < |s.stack| {
          assert Calls(p, s.stack[i], s.stack[j]);
        }
      }
    }
  }

  lemma CalleeCalls(p: Program, n: nat, callee: nat)
    requires callee in p.Callees(n) && callee in p.defined
    ensures Calls(p, n, callee)
  {
  }

  // The stack and what it carries, after a round.
  lemma RoundCarries(p: Program, s: Stage, s': Stage, n: nat, t0: Taint)
    requires s.stack != [] && n == s.stack[|s.stack| - 1] && s'.hasPrev && s'.prev == n
    requires s.stack <= s'.stack || s'.stack == s.stack[..|s.stack| - 1]
    requires CarriedBy(p, OnStack(s.stack), t0, s'.t)
    ensures CarriedBy(p, OnStack(s'.stack) + (if s'.hasPrev then {s'.prev} else {}), t0, s'.t)
  {
    StackCovers(s.stack, s'.stack, n);
    MoreCarry(p, OnStack(s.stack), OnStack(s'.stack) + {n}, t0, s'.t);
  }

  // One round: the function on top takes over taint, is flooded and recorded, and its next callee is
  // pushed, or it leaves the stack.
  method WalkRound(p: Program, ghost entry: nat, ghost entries: set<nat>, ghost t0: Taint, ghost conditions0: set<nat>, ghost seen0: set<nat>,
                   stack: seq<nat>, visited: map<nat, set<nat>>, ghost walked: set<nat>, hasPrev: bool, goingDown: bool, prev: nat,
                   t: Taint, conditions: set<nat>)
    returns (stack': seq<nat>, visited': map<nat, set<nat>>, found: bool, n: nat, t': Taint, conditions': set<nat>)
    requires stack != [] && WalkInv(p, entry, entries, t0, conditions0, seen0, Stage(stack, visited, walked, hasPrev, goingDown, prev, t, conditions))
    ensures n == stack[|stack| - 1]
    ensures WalkInv(p, entry, entries, t0, conditions0, seen0, Stage(stack', visited', walked + {n}, true, found, n, t', conditions'))
    ensures Untaken(p, visited') < Untaken(p, visited) || (Untaken(p, visited') == Untaken(p, visited) && |stack'| < |stack|)
  {
    hide Sound, Recorded, Untaken, Program.Callees, SourcesAreNodes, Crossing, AllDisjoint, ChainsAt, CarriedBy, CallsFollowed, OnlyCalled;
    hide HoldsLocal, CrossRecorded, CrossAll, IsLeastFlood, IsOrderOf, RoundMoves, RoundMarks, AllTaken, OnStack, ContextsGiven, ContextsAt, IsNextAt, Disjoint, ClosedUnderCalls, CallChain, Calls, IsCalled;
    hide Program.IsCondOf, Program.Vars, Program.Values, Program.SourcesIn, Program.Local;
    n := stack[|stack| - 1];
    ghost var order, flooded;
    t', conditions', order, flooded := CarryTaint(p, stack, hasPrev, goingDown, prev, t, seen0 + walked, conditions, t0);
    assert seen0 + walked + {n} == seen0 + (walked + {n});
    var pushed, callee;
    found, pushed, callee, visited' := NextCallee(p, n, visited);
    if found {
      TakingShrinks(p, n, visited, visited');
    } else {
      SameUntaken(p, visited, visited');
    }
    if pushed {
      stack' := stack + [callee];
      CalleeIsCalled(p, {entry}, stack, walked, n, callee);
    } else {
      stack' := if found then stack else stack[..|stack| - 1];
      FewerOnStack(stack, stack', n);
      FewerAreCalled(p, {entry}, walked + OnStack(stack), walked + {n} + OnStack(stack'));
    }
    RoundFollows(p, stack, walked, visited, n, found, pushed, callee, visited', stack');
    RoundCrosses(p, stack, visited, hasPrev, goingDown, prev, t, conditions, n, found, pushed, callee, visited', stack', t', conditions');
    ghost var s := Stage(stack, visited, walked, hasPrev, goingDown, prev, t, conditions);
    ghost var s' := Stage(stack', visited', walked + {n}, true, found, n, t', conditions');
    RoundIsRound(p, s, s', n, found, pushed, callee);
    if pushed {
      CalleeCalls(p, n, callee);
    }
    RoundCalls(p, entry, s, s', n, found, pushed, callee);
    if AllDisjoint(p) {
      FollowedIsTaken(p, s);
      RoundKeepsChains(p, entry, s, s', n, found, pushed, callee, order, if hasPrev then CrossAll(p, n, order, t) else t, flooded);
    }
    if ContextsGiven(p, entry, entries, t0, conditions0) {
      GivenMeans(p, entry, entries, t0, conditions0);
      RoundKeepsContexts(p, entry, entries, t0, s, s', n, found, pushed, callee, order, if hasPrev then CrossAll(p, n, order, t) else t, flooded);
    }
    if SourcesAreNodes(p) {
      RoundCarries(p, s, s', n, t0);
    }
  }

  // The walk from one entry ends, whatever the call graph, sees every function that calls lead to,
  // and records for each at least what its own sources taint, what passes over calls in either
  // direction and along routes from the entry, and at most what is tainted in some context. In the
  // end it has forgotten the taint of all functions but the entry.
  method Walk(p: Program, entry: nat, ghost entries: set<nat>, t0: Taint, conditions0: set<nat>, ghost seen0: set<nat>)
    returns (t: Taint, conditions: set<nat>, ghost seen: set<nat>)
    requires Sound(p, t0) && Recorded(p, seen0, conditions0) && ClosedUnderCalls(p, seen0) && CallsRecorded(p, seen0, conditions0)
    ensures Sound(p, t) && Recorded(p, seen, conditions) && CallsRecorded(p, seen, conditions)
    ensures seen0 <= seen && entry in seen && ClosedUnderCalls(p, seen)
    ensures forall from: set<nat> :: OnlyCalled(p, from, seen0) && entry in from ==> OnlyCalled(p, from, seen)
    ensures conditions0 <= conditions && (AllDisjoint(p) ==> RoutesRecorded(p, entry, conditions))
    ensures SourcesAreNodes(p) ==> CarriedBy(p, {entry}, t0, t)
    ensures ContextsGiven(p, entry, entries, t0, conditions0) ==> LeftBehind(p, entries, t) && AllInContext(p, entries, conditions)
  {
    t, conditions := t0, conditions0;
    var visited: map<nat, set<nat>> := map[];
    var stack := [entry];
    ghost var walked: set<nat> := {};
    var goingDown, hasPrev, prev := true, false, 0;
    hide WalkInv, Untaken, Sound, Recorded, CallsRecorded, ClosedUnderCalls, OnlyCalled, ContextsGiven, LeftBehind, AllInContext;
    StartWalk(p, entry, entries, t0, conditions0, seen0, Stage(stack, visited, walked, hasPrev, goingDown, prev, t, conditions));
    while stack != []
      invariant WalkInv(p, entry, entries, t0, conditions0, seen0, Stage(stack, visited, walked, hasPrev, goingDown, prev, t, conditions))
      decreases Untaken(p, visited), |stack|
    {
      var n;
      stack, visited, goingDown, n, t, conditions :=
        WalkRound(p, entry, entries, t0, conditions0, seen0, stack, visited, walked, hasPrev, goingDown, prev, t, conditions);
      walked := walked + {n};
      hasPrev, prev := true, n;
    }
    seen := seen0 + walked;
    EndWalk(p, entry, entries, t0, conditions0, seen0, Stage(stack, visited, walked, hasPrev, goingDown, prev, t, conditions));
    forall from: set<nat> | OnlyCalled(p, from, seen0) && entry in from ensures OnlyCalled(p, from, seen) {
      BothAreCalled(p, from, entry, seen0, walked);
    }
  }

  lemma BothAreCalled(p: Program, from: set<nat>, entry: nat, seen0: set<nat>, walked: set<nat>)
    requires OnlyCalled(p, from, seen0) && entry in from && OnlyCalled(p, {entry}, walked)
    ensures OnlyCalled(p, from, seen0 + walked)
  {
    forall s: set<nat> | ClosedUnderCalls(p, s) && from <= s ensures seen0 + walked <= s {
      assert {entry} <= s;
    }
  }

  lemma EndWalk(p: Program, entry: nat, entries: set<nat>, t0: Taint, conditions0: set<nat>, seen0: set<nat>, s: Stage)
    requires WalkInv(p, entry, entries, t0, conditions0, seen0, s) && s.stack == []
    requires ClosedUnderCalls(p, seen0) && CallsRecorded(p, seen0, conditions0)
    ensures var seen := seen0 + s.walked;
      && Sound(p, s.t) && Recorded(p, seen, s.conditions) && CallsRecorded(p, seen, s.conditions)
      && entry in seen && ClosedUnderCalls(p, seen) && conditions0 <= s.conditions && OnlyCalled(p, {entry}, s.walked)
    ensures AllDisjoint(p) ==> RoutesRecorded(p, entry, s.conditions)
    ensures SourcesAreNodes(p) ==> CarriedBy(p, {entry}, t0, s.t)
    ensures ContextsGiven(p, entry, entries, t0, conditions0) ==> LeftBehind(p, entries, s.t) && AllInContext(p, entries, s.conditions)
  {
    hide Sound, Recorded, CallsRecorded, SourcesAreNodes, Crossing, AllDisjoint, ChainsAt, RoutesRecorded, CarriedBy, OnlyCalled, ContextsGiven, ContextsAt, LeftBehind, AllInContext;
    EndCrossed(p, s.visited, s.hasPrev, s.goingDown, s.prev, s.t, s.walked, s.conditions);
    JoinRecorded(p, seen0, s.walked, conditions0, s.conditions);
    ChainsAtEnd(p, entry, s);
    if ContextsGiven(p, entry, entries, t0, conditions0) {
      GivenMeans(p, entry, entries, t0, conditions0);
      assert OnStack([]) + {entry} == {entry};
      EndContexts(p, entry, entries, t0, s);
    }
    assert OnStack([]) + {entry} == {entry} && s.walked + OnStack([]) == s.walked;
  }

  lemma FewerOnStack(stack: seq<nat>, stack': seq<nat>, n: nat)
    requires stack' <= stack && n in stack
    ensures n in OnStack(stack) && OnStack(stack') <= OnStack(stack)
  {
  }

  lemma StackCovers(stack: seq<nat>, stack': seq<nat>, n: nat)
    requires stack != [] && n == stack[|stack| - 1]
    requires stack <= stack' || stack' == stack[..|stack| - 1]
    ensures OnStack(stack) <= OnStack(stack') + {n}
  {
    forall f | f in stack ensures f in stack' || f == n {
      var i :| 0 <= i < |stack| && stack[i] == f;
      if i < |stack| - 1 {
        assert stack'[i] == f;
      }
    }
  }

  // The functions that calls lead to from the entries.
  ghost predicate Called(p: Program, entries: seq<nat>, f: nat) {
    forall s: set<nat> :: ClosedUnderCalls(p, s) && (forall e :: e in entries ==> e in s) ==> f in s
  }

  // All entries: the walk starts over from each, with the taint and the conditions found so far.
  // What is recorded is a condition of a function that is called, tainted without regard to contexts
  // and, without recursion, in some calling context. It holds what the sources of each function that
  // is called taint inside that function, inside its callees and callers after crossing one call, and
  // along all routes through functions with one caller.
  method ContextSensitive(p: Program, entries: seq<nat>) returns (conditions: set<nat>)
    ensures forall v :: v in conditions ==> p.Insensitive(Value(v)) && exists f :: Called(p, entries, f) && p.IsCondOf(f, v)
    ensures forall f, v :: Called(p, entries, f) && p.IsCondOf(f, v) && p.LocallyTainted(f, Value(v)) ==> v in conditions
    ensures AllDisjoint(p) ==> forall f, g :: Called(p, entries, f) && g in p.Callees(f) && Plain(p, f, g) ==>
              CrossRecorded(p, f, g, conditions) && CrossRecorded(p, g, f, conditions)
    ensures AllDisjoint(p) ==> forall e :: e in entries ==> RoutesRecorded(p, e, conditions)
    ensures Separate(p) ==> forall v :: v in conditions ==> InContext(p, OnStack(entries), Value(v))
  {
    hide AllDisjoint, CrossRecorded, RoutesRecorded, Separate, InContext;
    var t := Taint({}, {});
    conditions := {};
    ghost var seen: set<nat> := {};
    for i := 0 to |entries|
      invariant Sound(p, t) && Recorded(p, seen, conditions) && ClosedUnderCalls(p, seen) && CallsRecorded(p, seen, conditions)
      invariant forall j :: 0 <= j < i ==> entries[j] in seen
      invariant OnlyCalled(p, OnStack(entries), seen)
      invariant Separate(p) ==> LeftBehind(p, OnStack(entries), t) && AllInContext(p, OnStack(entries), conditions)
      invariant AllDisjoint(p) ==> forall j :: 0 <= j < i ==> RoutesRecorded(p, entries[j], conditions)
    {
      ghost var before := conditions;
      assert entries[i] in OnStack(entries);
      t, conditions, seen := Walk(p, entries[i], OnStack(entries), t, conditions, seen);
      if AllDisjoint(p) {
        forall j | 0 <= j < i ensures RoutesRecorded(p, entries[j], conditions) {
          MoreRecorded(p, entries[j], before, conditions);
        }
      }
    }
    assert forall f :: Called(p, entries, f) <==> f in seen;
  }
}
