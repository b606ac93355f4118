// A program on which taint goes down two calls, comes back, and goes down another one: it is recorded
// there, though no call alone shows it.
module TaintExample {
  import opened Sequences
  import opened TaintGraph
  import opened TaintFlood
  import opened TaintSteps
  import opened TaintCalls
  import opened TaintRoutes
  import opened TaintContexts
  import opened TaintWalk

  // Function 0 calls 1, which calls 2, and then 3. Value 0 is a source in function 0 and flows to 1 in
  // function 1, to 2 in 2, back to 11 in 1 and to 10 in 0, and to 3 in 3, where a call site depends
  // on it.
  function ExampleProgram(): Program {
    var none := EdgeMaps(map[], map[]);
    var values := EdgeMaps(map[0 := {1}, 1 := {2}, 2 := {11}, 11 := {10}, 10 := {3}],
                           map[1 := {0}, 2 := {1}, 11 := {2}, 10 := {11}, 3 := {10}]);
    Program(DepEdges(values, none, none, none), {}, {0}, {}, map[],
            map[0 := {0, 10}, 1 := {1, 11}, 2 := {2}, 3 := {3}], map[0 := 0],
            map[3 := [9]], map[9 := {3}], map[0 := [1, 3], 1 := [2]], {0, 1, 2, 3})
  }

  function ExampleRoute(): seq<Place> {
    [Place(Value(0), [0], None), Place(Value(1), [0, 1], None), Place(Value(2), [0, 1, 2], None),
     Place(Value(11), [0, 1], Some(2)), Place(Value(10), [0], Some(1)), Place(Value(3), [0, 3], None)]
  }

  lemma ExampleIsDisjoint()
    ensures AllDisjoint(ExampleProgram())
  {
  }

  lemma ExampleCallees(f: nat, g: nat)
    ensures HasCallee(ExampleProgram(), f, g) <==> (f == 0 && (g == 1 || g == 3)) || (f == 1 && g == 2)
  {
    var p := ExampleProgram();
    assert p.callees[0] == [1, 3] && p.callees[1] == [2];
  }

  lemma ExampleCalls()
    ensures forall g: nat :: !HasCallee(ExampleProgram(), g, 0)
    ensures var p := ExampleProgram(); OnlyCall(p, 0, 0, 1) && OnlyCall(p, 0, 1, 2) && OnlyCall(p, 0, 0, 3)
    ensures Before(ExampleProgram(), 0, 1, 3)
  {
    var p := ExampleProgram();
    assert p.callees[0][0] == 1 && 3 !in p.callees[0][..1];
    hide IsCalled, HasCallee;
    forall f: nat, g: nat
      ensures HasCallee(p, f, g) <==> (f == 0 && (g == 1 || g == 3)) || (f == 1 && g == 2)
    {
      ExampleCallees(f, g);
    }
  }

  lemma ExampleChains()
    ensures var p := ExampleProgram();
      OnlyChain(p, 0, [0]) && OnlyChain(p, 0, [0, 1]) && OnlyChain(p, 0, [0, 1, 2]) && OnlyChain(p, 0, [0, 3])
  {
    ExampleCalls();
    hide ExampleProgram, OnlyCall, HasCallee;
  }

  lemma ExamplePlaces()
    ensures forall i :: 0 <= i < |ExampleRoute()| ==> IsPlace(ExampleProgram(), 0, ExampleRoute()[i])
  {
    var p, w := ExampleProgram(), ExampleRoute();
    ExampleChains();
    assert [0, 1] + [2] == [0, 1, 2] && [0] + [1] == [0, 1];
    hide OnlyChain;
    assert IsPlace(p, 0, w[0]) && IsPlace(p, 0, w[1]) && IsPlace(p, 0, w[2]);
    assert IsPlace(p, 0, w[3]) && IsPlace(p, 0, w[4]) && IsPlace(p, 0, w[5]);
  }

  lemma ExampleMoves()
    ensures var p, w := ExampleProgram(), ExampleRoute();
      Moves(p, w[0], w[1]) && Moves(p, w[1], w[2]) && Moves(p, w[2], w[3]) && Moves(p, w[3], w[4]) && Moves(p, w[4], w[5])
  {
    ExampleCalls();
    hide OnlyCall, Before;
    assert [0, 1, 2][..2] == [0, 1] && [0, 1][..1] == [0] && [0, 3][..1] == [0];
  }

  lemma ExampleIsReached()
    ensures Reaches(ExampleProgram(), 0, Place(Value(3), [0, 3], None)) && DecidesIn(ExampleProgram(), 3, 3)
  {
    var p, w := ExampleProgram(), ExampleRoute();
    assert 9 in p.callSites[3];
    assert IsSourceIn(p, 0, Value(0));
    ExamplePlaces();
    ExampleMoves();
    hide ExampleProgram, IsPlace, Moves, DecidesIn, IsSourceIn;
    assert LeadsTo(p, 0, w, Place(Value(3), [0, 3], None));
  }

  lemma ExampleIsRecorded(conditions: set<nat>)
    requires RoutesRecorded(ExampleProgram(), 0, conditions)
    ensures 3 in conditions
  {
    var p := ExampleProgram();
    ExampleChains();
    ExampleIsReached();
    hide ExampleProgram, DecidesIn, OnlyChain, Reaches;
    assert IsStop(p, 0, [0, 3], None);
    assert StopRecorded(p, 0, [0, 3], None, conditions);
  }

  method RecordedOverFiveCrossings() returns (conditions: set<nat>)
    ensures conditions == {3}
  {
    var p, entries := ExampleProgram(), [0];
    conditions := ContextSensitive(p, entries);
    ExampleIsDisjoint();
    assert 0 in entries;
    ExampleIsRecorded(conditions);
  }

  /* Contexts. */

  // Functions 1 and 2 both call 3. Value 1 is a source in function 1 and flows to 3 in function 3,
  // and this to 2 in function 2, where a call site depends on it; but 3 has it from the other caller.
  function SharedProgram(): Program {
    var none := EdgeMaps(map[], map[]);
    Program(DepEdges(EdgeMaps(map[1 := {3}, 3 := {2}], map[3 := {1}, 2 := {3}]), none, none, none), {}, {1}, {}, map[],
            map[1 := {1}, 2 := {2}, 3 := {3}], map[1 := 1], map[2 := [9]], map[9 := {2}],
            map[0 := [1, 2], 1 := [3], 2 := [3]], {0, 1, 2, 3})
  }

  lemma {:induction false} SharedChains(chain: seq<nat>, k: nat)
    requires CallChain(SharedProgram(), 0, chain) && k < |chain|
    ensures k <= 2 && chain[k] == if k == 0 then 0 else if k == 2 then 3 else chain[1]
    ensures k == 1 ==> chain[k] == 1 || chain[k] == 2
  {
    if k > 0 {
      SharedChains(chain, k - 1);
      assert Calls(SharedProgram(), chain[k - 1], chain[k]);
    }
  }

  lemma SharedIsSeparate()
    ensures Separate(SharedProgram())
  {
    var p := SharedProgram();
    hide CallChain;
    assert AllDisjoint(p) && SourcesAreNodes(p);
    forall entry, chain | CallChain(p, entry, chain) ensures NoDuplicates(chain) {
      ChainRises(entry, chain);
    }
  }

  // Calls lead from 0 over 1 or 2 to 3.
  lemma {:induction false} ChainRises(entry: nat, chain: seq<nat>)
    requires CallChain(SharedProgram(), entry, chain)
    ensures NoDuplicates(chain)
  {
    forall i, j | 0 <= i < j < |chain| ensures chain[i] != chain[j] {
      Rises(entry, chain, i, j);
    }
  }

  function Level(f: nat): nat {
    if f == 0 then 0 else if f == 3 then 2 else 1
  }

  lemma {:induction false} Rises(entry: nat, chain: seq<nat>, i: nat, j: nat)
    requires CallChain(SharedProgram(), entry, chain) && i < j < |chain|
    ensures Level(chain[i]) < Level(chain[j])
    decreases j
  {
    assert Calls(SharedProgram(), chain[j - 1], chain[j]);
    if i < j - 1 {
      Rises(entry, chain, i, j - 1);
    }
  }

  // Along matched paths taint stays below the call of function 1.
  lemma {:induction false} BelowOne(w: seq<Spot>, k: nat)
    requires IsMatched(SharedProgram(), 0, w) && k < |w|
    ensures 1 in w[k].chain && w[k].node != Value(2)
  {
    var p := SharedProgram();
    assert IsSpot(p, 0, w[k]);
    var b := w[k];
    if k > 0 {
      BelowOne(w, k - 1);
      var a := w[k - 1];
      assert Steps(p, a, b) && IsSpot(p, 0, a);
      SharedChains(a.chain, |a.chain| - 1);
      SharedChains(b.chain, |b.chain| - 1);
    }
  }

  lemma SharedIsInsensitive()
    ensures SharedProgram().Insensitive(Value(2))
  {
    var p := SharedProgram();
    assert p.Insensitive(Value(1));
    InsensitiveStep(p, Value(1), Value(3));
    InsensitiveStep(p, Value(3), Value(2));
  }

  lemma NotInContext()
    ensures !InContext(SharedProgram(), {0}, Value(2))
  {
    var p := SharedProgram();
    forall chain | Occurs(p, 0, Spot(Value(2), chain)) ensures false {
      var w :| EndsAt(p, 0, w, Spot(Value(2), chain));
      BelowOne(w, |w| - 1);
    }
  }

  method NotRecordedForOtherCaller() returns (conditions: set<nat>)
    ensures SharedProgram().Insensitive(Value(2)) && SharedProgram().IsCondOf(2, 2)
    ensures 2 !in conditions
  {
    var p, entries := SharedProgram(), [0];
    conditions := ContextSensitive(p, entries);
    SharedIsSeparate();
    SharedIsInsensitive();
    NotInContext();
    assert OnStack(entries) == {0};
    assert 9 in p.Calls(2);
  }
}
