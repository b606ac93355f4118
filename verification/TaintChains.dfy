// Where the walk stands with chains of calls: what routes bring to the functions on the stack is kept
// until they have returned, and is recorded.
module TaintChains {
  import opened Sequences
  import opened TaintGraph
  import opened TaintFlood
  import opened TaintSteps
  import opened TaintCalls
  import opened TaintRoutes

  // The state of the walk: its stack, the callees visited from each function, the functions that
  // have been on top, the one on top before, what is tainted and what has been recorded.
  datatype Stage = Stage(stack: seq<nat>, visited: map<nat, set<nat>>, walked: set<nat>, hasPrev: bool, goingDown: bool, prev: nat,
                         t: Taint, conditions: set<nat>)

  // The function has just left the stack, and the one below has not yet taken over from it.
  ghost predicate JustLeft(f: nat, s: Stage) {
    s.hasPrev && !s.goingDown && s.prev == f
  }

  // The function has returned and the caller has taken over from it.
  ghost predicate Gone(f: nat, s: Stage) {
    f in s.walked && f !in s.stack && !JustLeft(f, s)
  }

  // The chain's last function stands on the stack only at the end of the chain, and is pushed but
  // once, after the caller has been on top.
  ghost predicate StandsAt(chain: seq<nat>, s: Stage)
    requires chain != []
  {
    var k, f := |chain| - 1, Last(chain);
    && (forall i :: 0 <= i < |s.stack| && s.stack[i] == f ==> i == k && chain <= s.stack)
    && (f in s.stack && f !in s.walked ==> s.stack == chain && JustPushed(chain, s))
    && (k > 0 ==> (f in VisitedFrom(s.visited, chain[k - 1]) <==> f in s.walked || f in s.stack))
    && (k > 0 && f in s.walked ==> chain[k - 1] in s.walked)
    && (JustLeft(f, s) ==> f !in s.stack && s.stack == chain[..k])
  }

  ghost predicate JustPushed(chain: seq<nat>, s: Stage)
    requires chain != []
  {
    var k := |chain| - 1;
    if k == 0 then !s.hasPrev else s.hasPrev && s.goingDown && s.prev == chain[k - 1] && chain[k - 1] in s.walked
  }

  ghost predicate AllStand(p: Program, entry: nat, s: Stage) {
    forall chain :: OnlyChain(p, entry, chain) ==> StandsAt(chain, s)
  }

  // Callees are visited in the order of the calls.
  ghost predicate InOrder(p: Program, s: Stage) {
    forall f, g, h :: Before(p, f, g, h) && g in p.defined && h in p.defined && h in VisitedFrom(s.visited, f) ==>
      g in VisitedFrom(s.visited, f)
  }

  // All callees of a function that has left the stack have been visited.
  ghost predicate AllTaken(p: Program, s: Stage) {
    forall f, g :: f in s.walked && f !in s.stack && HasCallee(p, f, g) ==> g in VisitedFrom(s.visited, f)
  }

  // While the function has not returned, what routes bring to it is tainted, and it has been
  // recorded; after a callee has returned also what they bring back from it.
  ghost predicate StopAt(p: Program, entry: nat, chain: seq<nat>, back: Option<nat>, s: Stage)
    requires chain != []
  {
    var f := Last(chain);
    f in s.walked && (back.Some? ==> Gone(back.value, s)) ==>
      && (f in s.stack || JustLeft(f, s) ==> Holds(p, entry, chain, back, s.t))
      && StopRecorded(p, entry, chain, back, s.conditions)
  }

  ghost predicate StopsAt(p: Program, entry: nat, s: Stage) {
    forall chain, back {:trigger IsStop(p, entry, chain, back)} :: IsStop(p, entry, chain, back) ==> StopAt(p, entry, chain, back, s)
  }

  ghost predicate ChainsAt(p: Program, entry: nat, s: Stage) {
    AllStand(p, entry, s) && InOrder(p, s) && StopsAt(p, entry, s)
  }

  // One round: its effect on the stack ...
  ghost predicate RoundMoves(p: Program, s: Stage, s': Stage, n: nat, found: bool, pushed: bool, callee: nat) {
    && s.stack != [] && n == s.stack[|s.stack| - 1] && s'.walked == s.walked + {n}
    && s'.hasPrev && s'.prev == n && s'.goingDown == found && (pushed ==> found && HasCallee(p, n, callee))
    && s'.stack == (if pushed then s.stack + [callee] else if found then s.stack else s.stack[..|s.stack| - 1])
  }

  // ... on the marks ...
  ghost predicate RoundMarks(p: Program, s: Stage, s': Stage, n: nat, pushed: bool, callee: nat) {
    && (forall m :: m != n ==> VisitedFrom(s'.visited, m) == VisitedFrom(s.visited, m))
    && VisitedFrom(s.visited, n) <= VisitedFrom(s'.visited, n)
    && (forall c :: c in VisitedFrom(s'.visited, n) && c !in VisitedFrom(s.visited, n) && c in p.defined ==> pushed && c == callee)
    && (pushed ==> callee !in VisitedFrom(s.visited, n) && callee in VisitedFrom(s'.visited, n))
    && (pushed ==> forall g :: Before(p, n, g, callee) && g in p.defined ==> g in VisitedFrom(s.visited, n))
  }

  // ... and on the taint.
  ghost predicate RoundTaints(p: Program, s: Stage, s': Stage, n: nat, order: seq<Node>, entered: Taint, flooded: Taint) {
    && (s.hasPrev ==> IsOrderOf(p, s.prev, order))
    && entered == (if s.hasPrev then CrossAll(p, n, order, s.t) else s.t)
    && Flooded(p, n, entered, flooded)
    && s'.t == (if s.hasPrev && !s.goingDown then Taint(flooded.vars - p.Vars(s.prev), flooded.values - p.Values(s.prev)) else flooded)
    && s.conditions <= s'.conditions && (forall v :: p.IsCondOf(n, v) && v in flooded.values ==> v in s'.conditions)
  }

  // The chain's function keeps its place on the stack ...
  lemma OldPlace(chain: seq<nat>, s: Stage, s': Stage)
    requires chain != [] && StandsAt(chain, s) && s.stack != []
    requires s.stack <= s'.stack || s'.stack == s.stack[..|s.stack| - 1]
    requires forall i :: 0 <= i < |s'.stack| && s'.stack[i] == Last(chain) ==> i < |s.stack| && s.stack[i] == Last(chain)
    ensures forall i :: 0 <= i < |s'.stack| && s'.stack[i] == Last(chain) ==> i == |chain| - 1 && chain <= s'.stack
  {
    hide JustPushed, JustLeft;
    forall i | 0 <= i < |s'.stack| && s'.stack[i] == Last(chain) ensures i == |chain| - 1 && chain <= s'.stack {
      assert s.stack[i] == Last(chain);
      assert |chain| <= |s.stack| && chain == s.stack[..|chain|];
    }
  }

  // ... or gets it.
  lemma PushedPlace(p: Program, entry: nat, chain: seq<nat>, s: Stage, s': Stage, n: nat, found: bool)
    requires IsCalled(p, entry, n)
    requires OnlyChain(p, entry, chain) && chain != [] && RoundMoves(p, s, s', n, found, true, Last(chain))
    requires |chain| > 1 ==> StandsAt(chain[..|chain| - 1], s) && OnlyCall(p, entry, chain[|chain| - 2], Last(chain))
    ensures |chain| > 1 && n == chain[|chain| - 2] && s.stack == chain[..|chain| - 1] && s'.stack == chain
  {
    hide IsCalled;
    assert HasCallee(p, n, Last(chain));
    assert |chain| > 1 && n == chain[|chain| - 2];
    hide OnlyChain, OnlyCall, HasCallee, IsCalled, JustPushed, JustLeft;
    var c := chain[..|chain| - 1];
    assert Last(c) == n && s.stack[|s.stack| - 1] == n;
    assert s.stack == c && chain == c + [Last(chain)];
  }

  // A round in which the chain's function is pushed.
  lemma PushedStands(chain: seq<nat>, s: Stage, s': Stage, n: nat)
    requires |chain| > 1 && n == chain[|chain| - 2] && s.stack == chain[..|chain| - 1] && s'.stack == chain && StandsAt(chain, s)
    requires s'.walked == s.walked + {n} && s'.hasPrev && s'.prev == n && s'.goingDown
    requires Last(chain) !in VisitedFrom(s.visited, n) && Last(chain) in VisitedFrom(s'.visited, n)
    ensures StandsAt(chain, s')
  {
    var k, f := |chain| - 1, Last(chain);
    assert f !in s.stack && f !in s.walked;
    assert s'.stack[k] == f && n in s'.walked;
    assert forall i :: 0 <= i < |s.stack| ==> s.stack[i] == s'.stack[i] && s.stack[i] in s.stack;
  }

  // A round in which it is on top.
  lemma TopStands(p: Program, entry: nat, chain: seq<nat>, s: Stage, s': Stage, found: bool, pushed: bool, callee: nat)
    requires OnlyChain(p, entry, chain) && StandsAt(chain, s) && (pushed ==> callee != Last(chain))
    requires RoundMoves(p, s, s', Last(chain), found, pushed, callee) && RoundMarks(p, s, s', Last(chain), pushed, callee)
    ensures StandsAt(chain, s')
  {
    var k, f := |chain| - 1, Last(chain);
    if k > 0 {
      NotTwice(p, entry, chain, k - 1, k);
    }
    hide Before, OnlyChain, HasCallee;
    assert s.stack[|s.stack| - 1] == f;
    assert s.stack == chain;
    assert forall i :: 0 <= i < |s'.stack| && s'.stack[i] == f ==> i < |s.stack| && s.stack[i] == f;
    OldPlace(chain, s, s');
    if found {
      assert s'.stack[k] == f;
    }
    assert !found ==> s'.stack == chain[..k];
  }

  // Any other round.
  lemma OtherStands(p: Program, entry: nat, chain: seq<nat>, s: Stage, s': Stage, n: nat, found: bool, pushed: bool, callee: nat)
    requires OnlyChain(p, entry, chain) && StandsAt(chain, s) && n != Last(chain) && (pushed ==> callee != Last(chain))
    requires RoundMoves(p, s, s', n, found, pushed, callee) && RoundMarks(p, s, s', n, pushed, callee)
    requires |chain| > 1 ==> OnlyCall(p, entry, chain[|chain| - 2], Last(chain))
    ensures StandsAt(chain, s')
  {
    var k, f := |chain| - 1, Last(chain);
    if k > 0 {
      assert f in p.defined;
      SameMarks(p, s, s', n, pushed, callee, chain[k - 1], f);
    }
    hide RoundMarks, Before, OnlyChain, OnlyCall, HasCallee, IsCalled;
    SameStack(s, s', n, found, pushed, callee, f);
    NotOnTop(chain, s, n);
    assert forall i :: 0 <= i < |s'.stack| && s'.stack[i] == f ==> i < |s.stack| && s.stack[i] == f;
    OldPlace(chain, s, s');
    OtherStage(chain, s, s', n);
  }

  lemma OtherStage(chain: seq<nat>, s: Stage, s': Stage, n: nat)
    requires chain != [] && StandsAt(chain, s) && n != Last(chain) && s'.walked == s.walked + {n} && s'.prev == n
    requires Last(chain) in s'.stack <==> Last(chain) in s.stack
    requires Last(chain) in s.stack ==> Last(chain) in s.walked
    requires forall i :: 0 <= i < |s'.stack| && s'.stack[i] == Last(chain) ==> i == |chain| - 1 && chain <= s'.stack
    requires |chain| > 1 ==> var m, f := chain[|chain| - 2], Last(chain);
                             f in VisitedFrom(s'.visited, m) <==> f in VisitedFrom(s.visited, m)
    ensures StandsAt(chain, s')
  {
    hide VisitedFrom, JustPushed;
  }

  lemma NotOnTop(chain: seq<nat>, s: Stage, n: nat)
    requires chain != [] && StandsAt(chain, s) && s.stack != [] && n == Last(s.stack) && n != Last(chain)
    ensures Last(chain) in s.stack ==> Last(chain) in s.walked
  {
    hide JustPushed, JustLeft;
    assert s.stack != chain;
  }

  lemma SameMarks(p: Program, s: Stage, s': Stage, n: nat, pushed: bool, callee: nat, m: nat, f: nat)
    requires RoundMarks(p, s, s', n, pushed, callee) && f in p.defined && (pushed ==> callee != f)
    ensures f in VisitedFrom(s'.visited, m) <==> f in VisitedFrom(s.visited, m)
  {
    hide Before, VisitedFrom;
  }

  lemma SameStack(s: Stage, s': Stage, n: nat, found: bool, pushed: bool, callee: nat, f: nat)
    requires s.stack != [] && n == Last(s.stack) && f != n && (pushed ==> callee != f)
    requires s'.stack == (if pushed then s.stack + [callee] else if found then s.stack else s.stack[..|s.stack| - 1])
    ensures f in s'.stack <==> f in s.stack
  {
    if f in s.stack {
      var i :| 0 <= i < |s.stack| && s.stack[i] == f;
      assert s'.stack[i] == f;
    }
  }

  lemma StillStands(p: Program, entry: nat, chain: seq<nat>, s: Stage, s': Stage, n: nat, found: bool, pushed: bool, callee: nat)
    requires IsCalled(p, entry, n)
    requires OnlyChain(p, entry, chain) && StandsAt(chain, s)
    requires RoundMoves(p, s, s', n, found, pushed, callee) && RoundMarks(p, s, s', n, pushed, callee)
    requires |chain| > 1 ==> StandsAt(chain[..|chain| - 1], s) && OnlyCall(p, entry, chain[|chain| - 2], Last(chain))
    ensures StandsAt(chain, s')
  {
    hide StandsAt;
    if pushed && callee == Last(chain) {
      PushedPlace(p, entry, chain, s, s', n, found);
      assert Last(chain) !in VisitedFrom(s.visited, n) && Last(chain) in VisitedFrom(s'.visited, n);
      PushedStands(chain, s, s', n);
    } else if n == Last(chain) {
      TopStands(p, entry, chain, s, s', found, pushed, callee);
    } else {
      OtherStands(p, entry, chain, s, s', n, found, pushed, callee);
    }
  }

  lemma StillInOrder(p: Program, s: Stage, s': Stage, n: nat, pushed: bool, callee: nat)
    requires InOrder(p, s) && RoundMarks(p, s, s', n, pushed, callee)
    ensures InOrder(p, s')
  {
    hide Before;
  }

  // When a function is pushed, the callees called before it have returned.
  lemma EarlierIsGone(p: Program, entry: nat, chain: seq<nat>, g: nat, s: Stage)
    requires OnlyChain(p, entry, chain) && |chain| > 1 && s.stack == chain && !(s.hasPrev && !s.goingDown)
    requires var c := chain[..|chain| - 1];
      OnlyChain(p, entry, c + [g]) && Before(p, Last(c), g, Last(chain))
    requires AllStand(p, entry, s) && InOrder(p, s)
    ensures Gone(g, s)
  {
    var k := |chain| - 1;
    var c := chain[..k];
    var d := c + [g];
    ShorterChain(p, entry, chain);
    ShorterChain(p, entry, d);
    assert d[..|d| - 1] == c && d[|d| - 2] == Last(c) && Last(d) == g;
    assert StandsAt(chain, s) && StandsAt(d, s);
    assert s.stack[k] == Last(chain);
    assert g != Last(chain);
    hide OnlyChain, Before;
    assert forall i :: 0 <= i < |s.stack| && s.stack[i] == g ==> i == k;
  }

  // When a function has just left the stack, its callees have returned.
  lemma CalleeIsGone(p: Program, entry: nat, chain: seq<nat>, h: nat, s: Stage)
    requires chain != [] && OnlyChain(p, entry, chain + [h]) && AllStand(p, entry, s) && AllTaken(p, s)
    requires Last(chain) in s.walked && JustLeft(Last(chain), s) && OnlyChain(p, entry, chain)
    ensures Gone(h, s)
  {
    var g, d := Last(chain), chain + [h];
    ShorterChain(p, entry, d);
    assert d[|d| - 2] == g && Last(d) == h;
    NotTwice(p, entry, d, |d| - 2, |d| - 1);
    assert StandsAt(chain, s) && StandsAt(d, s);
    assert d[|d| - 2] in d && (d <= s.stack ==> forall x :: x in d ==> x in s.stack);
  }

  // The function on top: entered from the one before for the first time, or come back to.
  lemma TopEntered(p: Program, entry: nat, chain: seq<nat>, s: Stage, n: nat, order: seq<Node>, entered: Taint)
    requires OnlyChain(p, entry, chain) && AllDisjoint(p) && ChainsAt(p, entry, s)
    requires s.stack != [] && n == Last(s.stack) && n == Last(chain)
    requires (s.hasPrev ==> IsOrderOf(p, s.prev, order)) && entered == (if s.hasPrev then CrossAll(p, n, order, s.t) else s.t)
    ensures HoldsEntered(p, entry, chain, None, entered)
  {
    var k := |chain| - 1;
    assert IsStop(p, entry, chain, None);
    assert StandsAt(chain, s) && StopAt(p, entry, chain, None, s);
    hide CrossAll, Holds, HoldsEntered, IsOrderOf, StopRecorded, IsStop;
    assert n in s.stack;
    if n in s.walked {
      if s.hasPrev {
        CrossingHolds(p, entry, chain, None, n, order, s.t);
      } else {
        HeldIsEntered(p, entry, chain, None, s.t);
      }
    } else if k == 0 {
      NothingComes(p, entry, chain, entered);
    } else {
      var c := chain[..k];
      ShorterChain(p, entry, chain);
      assert Last(c) == s.prev && s.prev in s.walked && s.stack == chain;
      assert s.stack[k - 1] == s.prev;
      NotTwice(p, entry, chain, k - 1, k);
      assert Disjoint(p, n, s.prev);
      forall back | IsStop(p, entry, c, back) && (back.Some? ==> Before(p, Last(c), back.value, n)) ensures Holds(p, entry, c, back, s.t) {
        StopIsChain(p, entry, c, back);
        if back.Some? {
          EarlierIsGone(p, entry, chain, back.value, s);
        }
        assert StopAt(p, entry, c, back, s);
      }
      CallHolds(p, entry, chain, order, s.t);
    }
  }

  lemma StopIsChain(p: Program, entry: nat, chain: seq<nat>, back: Option<nat>)
    requires IsStop(p, entry, chain, back)
    ensures OnlyChain(p, entry, chain) && (back.Some? ==> OnlyChain(p, entry, chain + [back.value]))
  {
  }

  // The function on top after a callee has returned.
  lemma TopBack(p: Program, entry: nat, chain: seq<nat>, g: nat, s: Stage, s': Stage, n: nat, found: bool, pushed: bool, callee: nat,
                order: seq<Node>, entered: Taint)
    requires IsStop(p, entry, chain, Some(g)) && OnlyChain(p, entry, chain) && OnlyChain(p, entry, chain + [g])
    requires AllDisjoint(p) && ChainsAt(p, entry, s) && AllTaken(p, s)
    requires RoundMoves(p, s, s', n, found, pushed, callee) && n == Last(chain) && Gone(g, s')
    requires (s.hasPrev ==> IsOrderOf(p, s.prev, order)) && entered == (if s.hasPrev then CrossAll(p, n, order, s.t) else s.t)
    ensures HoldsEntered(p, entry, chain, Some(g), entered)
  {
    var d := chain + [g];
    NotTwice(p, entry, d, |d| - 2, |d| - 1);
    assert d[|d| - 2] == n && Last(d) == g && StandsAt(d, s);
    assert n in s.stack;
    hide CrossAll, Holds, HoldsEntered, IsOrderOf, StopRecorded, IsStop, OnlyChain, Before;
    assert g in s.walked && g !in s.stack by { StaysGone(p, s, s', n, found, pushed, callee, g); }
    if JustLeft(g, s) {
      assert Disjoint(p, n, g);
      forall back | IsStop(p, entry, d, back) ensures Holds(p, entry, d, back, s.t) {
        StopIsChain(p, entry, d, back);
        if back.Some? {
          CalleeIsGone(p, entry, d, back.value, s);
        }
        assert StopAt(p, entry, d, back, s);
      }
      ReturnHolds(p, entry, chain, g, order, s.t);
    } else {
      assert StopAt(p, entry, chain, Some(g), s);
      if s.hasPrev {
        CrossingHolds(p, entry, chain, Some(g), n, order, s.t);
      } else {
        HeldIsEntered(p, entry, chain, Some(g), s.t);
      }
    }
  }

  // A function that is gone after a round and was not on top was off the stack before.
  lemma StaysGone(p: Program, s: Stage, s': Stage, n: nat, found: bool, pushed: bool, callee: nat, g: nat)
    requires RoundMoves(p, s, s', n, found, pushed, callee) && Gone(g, s') && g != n
    ensures g in s.walked && g !in s.stack
  {
    assert forall i :: 0 <= i < |s.stack| && i < |s'.stack| ==> s.stack[i] == s'.stack[i];
  }

  // A function elsewhere: what has returned after the round had returned before.
  lemma WasGone(p: Program, entry: nat, chain: seq<nat>, g: nat, s: Stage, s': Stage, n: nat, found: bool, pushed: bool, callee: nat)
    requires chain != [] && OnlyChain(p, entry, chain + [g]) && AllStand(p, entry, s)
    requires RoundMoves(p, s, s', n, found, pushed, callee) && n != Last(chain) && Gone(g, s')
    ensures Gone(g, s)
  {
    var d := chain + [g];
    assert StandsAt(d, s) && Last(d) == g && d[..|d| - 1] == chain;
    hide OnlyChain, Before;
    if g == n {
      assert false by { TopIsNotGone(p, s, s', n, found, pushed, callee); }
    }
    StaysGone(p, s, s', n, found, pushed, callee, g);
  }

  lemma TopIsNotGone(p: Program, s: Stage, s': Stage, n: nat, found: bool, pushed: bool, callee: nat)
    requires RoundMoves(p, s, s', n, found, pushed, callee)
    ensures !Gone(n, s')
  {
    hide Before;
    if found {
      assert s'.stack[|s.stack| - 1] == n;
    }
  }

  // A function that has been on top is not pushed again.
  lemma WasOnStack(p: Program, entry: nat, chain: seq<nat>, s: Stage, s': Stage, n: nat, found: bool, pushed: bool, callee: nat)
    requires IsCalled(p, entry, n)
    requires OnlyChain(p, entry, chain) && StandsAt(chain, s) && Last(chain) in s.walked && Last(chain) in s'.stack
    requires RoundMoves(p, s, s', n, found, pushed, callee) && RoundMarks(p, s, s', n, pushed, callee)
    ensures Last(chain) in s.stack
  {
    if |chain| > 1 {
      ShorterChain(p, entry, chain);
    }
    hide IsCalled;
    assert pushed ==> HasCallee(p, n, callee);
  }

  lemma RoundKeepsStop(p: Program, entry: nat, chain: seq<nat>, back: Option<nat>, s: Stage, s': Stage, n: nat, found: bool, pushed: bool,
                       callee: nat, order: seq<Node>, entered: Taint, flooded: Taint)
    requires IsCalled(p, entry, n)
    requires IsStop(p, entry, chain, back) && OnlyChain(p, entry, chain) && AllDisjoint(p) && ChainsAt(p, entry, s) && AllTaken(p, s)
    requires RoundMoves(p, s, s', n, found, pushed, callee) && RoundTaints(p, s, s', n, order, entered, flooded)
    requires RoundMarks(p, s, s', n, pushed, callee)
    requires back.Some? ==> OnlyChain(p, entry, chain + [back.value])
    ensures StopAt(p, entry, chain, back, s')
  {
    var f := Last(chain);
    assert StandsAt(chain, s) && StopAt(p, entry, chain, back, s);
    hide OnlyChain, IsStop, ChainsAt, Holds, HoldsEntered, StopRecorded, CrossAll, Flooded, IsOrderOf, RoundMarks;
    if f in s'.walked && (back.Some? ==> Gone(back.value, s')) {
      if f == n {
        assert n in s.stack;
        if back.Some? {
          TopBack(p, entry, chain, back.value, s, s', n, found, pushed, callee, order, entered);
        } else {
          TopEntered(p, entry, chain, s, n, order, entered);
        }
        FloodHoldsAll(p, entry, chain, back, entered, flooded);
        HeldIsRecorded(p, entry, chain, back, flooded, s'.conditions);
        if s.hasPrev && !s.goingDown {
          assert s.prev != f;
          assert Disjoint(p, f, s.prev);
          ForgetHolds(p, entry, chain, back, s.prev, flooded, s'.t);
        }
      } else {
        if back.Some? {
          StandAll(p, entry, s);
          WasGone(p, entry, chain, back.value, s, s', n, found, pushed, callee);
        }
        MoreStopRecorded(p, entry, chain, back, s.conditions, s'.conditions);
        if f in s'.stack {
          WasOnStack(p, entry, chain, s, s', n, found, pushed, callee);
          assert Disjoint(p, f, n);
          assert s.hasPrev && !s.goingDown ==> s.prev != f && Disjoint(p, f, s.prev);
          ElsewhereHolds(p, entry, chain, back, n, s.prev, s.hasPrev && !s.goingDown, order, s.t, entered, flooded, s'.t);
        }
      }
    }
  }

  lemma StandAll(p: Program, entry: nat, s: Stage)
    requires ChainsAt(p, entry, s)
    ensures AllStand(p, entry, s)
  {
  }

  // A round keeps all of it.
  lemma RoundKeepsChains(p: Program, entry: nat, s: Stage, s': Stage, n: nat, found: bool, pushed: bool, callee: nat,
                         order: seq<Node>, entered: Taint, flooded: Taint)
    requires IsCalled(p, entry, n)
    requires AllDisjoint(p) && ChainsAt(p, entry, s) && AllTaken(p, s)
    requires RoundMoves(p, s, s', n, found, pushed, callee) && RoundMarks(p, s, s', n, pushed, callee)
    requires RoundTaints(p, s, s', n, order, entered, flooded)
    ensures ChainsAt(p, entry, s')
  {
    RoundStands(p, entry, s, s', n, found, pushed, callee);
    StillInOrder(p, s, s', n, pushed, callee);
    hide RoundMoves, RoundMarks, RoundTaints, AllDisjoint, StopAt, StandsAt, OnlyChain, InOrder, AllTaken;
    assert StopsAt(p, entry, s') by {
      hide ChainsAt, StopsAt;
      forall chain, back | IsStop(p, entry, chain, back) ensures StopAt(p, entry, chain, back, s') {
        StopIsChain(p, entry, chain, back);
        RoundKeepsStop(p, entry, chain, back, s, s', n, found, pushed, callee, order, entered, flooded);
      }
      AllStopsAt(p, entry, s');
    }
  }

  lemma RoundStands(p: Program, entry: nat, s: Stage, s': Stage, n: nat, found: bool, pushed: bool, callee: nat)
    requires IsCalled(p, entry, n)
    requires AllStand(p, entry, s) && RoundMoves(p, s, s', n, found, pushed, callee) && RoundMarks(p, s, s', n, pushed, callee)
    ensures AllStand(p, entry, s')
  {
    hide RoundMoves, RoundMarks, StandsAt;
    forall chain | OnlyChain(p, entry, chain) ensures StandsAt(chain, s') {
      if |chain| > 1 {
        ShorterChain(p, entry, chain);
      }
      StillStands(p, entry, chain, s, s', n, found, pushed, callee);
    }
  }

  lemma AllStopsAt(p: Program, entry: nat, s: Stage)
    requires forall chain, back :: IsStop(p, entry, chain, back) ==> StopAt(p, entry, chain, back, s)
    ensures StopsAt(p, entry, s)
  {
    hide IsStop, StopAt;
  }

  lemma StartChains(p: Program, entry: nat, s: Stage)
    requires s.stack == [entry] && s.visited == map[] && s.walked == {} && !s.hasPrev
    ensures ChainsAt(p, entry, s)
  {
    hide Before;
    forall chain | OnlyChain(p, entry, chain) ensures StandsAt(chain, s) {
      if |chain| > 1 {
        NotTwice(p, entry, chain, 0, |chain| - 1);
      } else {
        assert chain == [entry];
      }
    }
  }

  // When the stack is empty the functions of all chains have been walked, and their conditions
  // recorded.
  lemma EndChains(p: Program, entry: nat, s: Stage)
    requires ChainsAt(p, entry, s) && AllTaken(p, s) && s.stack == [] && entry in s.walked && (s.hasPrev ==> s.prev == entry)
    ensures RoutesRecorded(p, entry, s.conditions)
  {
    forall chain, back | IsStop(p, entry, chain, back) ensures StopRecorded(p, entry, chain, back, s.conditions) {
      StopIsChain(p, entry, chain, back);
      WalkedToTheEnd(p, entry, chain, s);
      if back.Some? {
        var d := chain + [back.value];
        WalkedToTheEnd(p, entry, d, s);
        NotTwice(p, entry, d, 0, |d| - 1);
      }
      assert StopAt(p, entry, chain, back, s);
    }
  }

  lemma {:induction false} WalkedToTheEnd(p: Program, entry: nat, chain: seq<nat>, s: Stage)
    requires OnlyChain(p, entry, chain)
    requires AllStand(p, entry, s) && AllTaken(p, s) && s.stack == [] && entry in s.walked
    ensures Last(chain) in s.walked
    decreases |chain|
  {
    if |chain| > 1 {
      ShorterChain(p, entry, chain);
      WalkedToTheEnd(p, entry, chain[..|chain| - 1], s);
      assert StandsAt(chain, s);
    }
  }
}
