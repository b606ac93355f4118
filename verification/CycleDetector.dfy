// Online cycle detection: the depth-first search runs on the copy graph between the current
// representatives and collapses each component into its root as soon as the root closes it.
module CycleDetection {
  import Sequences
  import opened Graphs
  import opened PointsTo
  import opened NodeFactory
  import opened ConstraintGraphs
  import opened DepthFirst
  import opened Collapse
  import opened Solver

  // What the search has merged by the time "done" is closed: whole components of the graph it
  // started from, each into one of its nodes, and nothing else.
  ghost predicate MergedUpTo(s: State, t: State, done: set<nat>) {
    && IsQuotient(s, t)
    && (forall m: nat :: s.IsRep(m) && t.rep[m] != m ==> m in done && t.rep[m] in done)
    && (forall m: nat, k: nat :: s.IsRep(m) && s.IsRep(k) && t.rep[m] == t.rep[k] ==> SameScc(CopyGraph(s), m, k))
    && (forall m: nat, x: nat :: s.IsRep(m) && m in done && s.IsRep(x) && SameScc(CopyGraph(s), m, x) ==> t.rep[x] == t.rep[m])
  }

  lemma NothingMerged(s: State)
    requires s.WellFormed()
    ensures MergedUpTo(s, s, {})
  {
    QuotientReflexive(s);
    forall m: nat | s.IsRep(m) ensures SameScc(CopyGraph(s), m, m) {
      ReachesSelf(CopyGraph(s), m);
    }
  }

  lemma MergedUpToMergesSccs(s: State, t: State, done: set<nat>)
    requires MergedUpTo(s, t, done)
    ensures IsQuotient(s, t) && MergesSccs(s, t)
  {
    hide SameScc, CopyGraph;
  }

  lemma CopyGraphClosed(s: State)
    requires s.WellFormed()
    ensures Closed(CopyGraph(s))
  {
  }

  // A node that no merge has touched still has its own edges.
  lemma UntouchedEdges(s: State, t: State, done: set<nat>, n: nat)
    requires MergedUpTo(s, t, done) && s.IsRep(n) && n !in done
    ensures t.rep[n] == n && t.EdgesOf(n).copy == s.EdgesOf(n).copy
  {
    hide SameScc, CopyGraph;
    assert GathersAt(s, t, n);
    assert Members(s, t, n) == {n};
  }

  // Where an edge leads now, and where it led when the search began.
  lemma ChildRep(s: State, t: State, done: set<nat>, n: nat, child: nat)
    requires MergedUpTo(s, t, done) && s.IsRep(n) && n !in done && child in t.EdgesOf(n).copy
    ensures child < |s.rep| && child < |t.rep|
    ensures s.rep[child] in CopyGraph(s) && s.rep[child] in CopyGraph(s)[n]
    ensures if s.rep[child] in done then t.rep[child] in done else t.rep[child] == s.rep[child]
  {
    hide SameScc;
    UntouchedEdges(s, t, done, n);
    assert t.rep[child] == t.rep[s.rep[child]];
    assert s.IsRep(s.rep[child]);
    assert s.rep[child] in s.Succ(n);
  }

  // Merging a component into its root, one member after the other: "popped" have been merged.
  ghost predicate Popping(s: State, t: State, u: State, root: nat, popped: set<nat>) {
    && IsQuotient(s, u) && |t.rep| == |u.rep|
    && root !in popped
    && (forall n :: 0 <= n < |t.rep| ==> u.rep[n] == if t.rep[n] in popped then root else t.rep[n])
  }

  lemma PopStep(s: State, t: State, u: State, u': State, root: nat, popped: set<nat>, w: nat)
    requires Popping(s, t, u, root, popped) && MergesTwo(u, u', root, w) && t.WellFormed() && t.IsRep(w) && w !in popped
    ensures Popping(s, t, u', root, popped + {w})
  {
    hide IsQuotient, MergesTwo, State.WellFormed;
    MergeKeepsQuotient(s, u, u', root, w);
    MergedRep(u, u', root, w);
    forall n | 0 <= n < |t.rep| ensures u'.rep[n] == if t.rep[n] in popped + {w} then root else t.rep[n] {
      assert u.rep[n] == if t.rep[n] in popped then root else t.rep[n];
    }
  }

  lemma MergedRep(u: State, u': State, root: nat, w: nat)
    requires MergesTwo(u, u', root, w)
    ensures |u'.rep| == |u.rep| && root != w
    ensures forall n :: 0 <= n < |u.rep| ==> u'.rep[n] == if u.rep[n] == w then root else u.rep[n]
  {
  }

  lemma PoppedAll(s: State, t: State, u: State, done: set<nat>, root: nat, popped: set<nat>)
    requires MergedUpTo(s, t, done) && Popping(s, t, u, root, popped)
    requires s.IsRep(root) && root !in done && popped !! done && IsScc(CopyGraph(s), popped + {root})
    requires forall x :: x in popped ==> s.IsRep(x)
    ensures MergedUpTo(s, u, done + {root} + popped)
  {
    hide CopyGraph, IsQuotient, SameScc;
    var group := popped + {root};
    forall m: nat | s.IsRep(m) ensures m < |t.rep| && (m in group ==> t.rep[m] == m && u.rep[m] == root)
                                      && (m !in group ==> t.rep[m] !in popped && u.rep[m] == t.rep[m] && t.rep[m] != root)
    {
      QuotientRep(s, t, m);
      assert SameScc(CopyGraph(s), m, t.rep[m]) by { RepInScc(s, t, done, m); }
      SccSymmetric(CopyGraph(s), m, t.rep[m]);
    }
  }

  lemma SccSymmetric(g: Graph, a: nat, b: nat)
    ensures SameScc(g, a, b) <==> SameScc(g, b, a)
  {
  }

  lemma RepInScc(s: State, t: State, done: set<nat>, m: nat)
    requires MergedUpTo(s, t, done) && s.IsRep(m)
    ensures m < |t.rep| && SameScc(CopyGraph(s), m, t.rep[m])
  {
    hide SameScc, CopyGraph;
    QuotientRep(s, t, m);
    assert t.IsRep(t.rep[m]);
  }

  // Adding a node without edges to the constraint graph is invisible.
  lemma InsertedNodeInvisible(s: State, t: State, u: State, done: set<nat>, n: nat)
    requires MergedUpTo(s, t, done) && t.IsRep(n)
    requires u == t.(graph := if n in t.graph then t.graph else t.graph[n := NoEdges])
    ensures MergedUpTo(s, u, done) && u.WellFormed()
  {
    hide SameScc, CopyGraph;
    forall r: nat ensures GathersAt(s, u, r) {
      assert GathersAt(s, t, r);
      assert u.EdgesOf(r) == t.EdgesOf(r) && u.Pts(r) == t.Pts(r);
      assert Members(s, u, r) == Members(s, t, r);
    }
  }

  class OnlineCycleDetector {
    const solver: Andersen
    var dfsNum: map<nat, nat>
    var inComponent: set<nat>
    var timestamp: nat
    var sccStack: seq<nat>
    ghost var born: map<nat, nat>
    ghost var path: set<nat>
    ghost var groups: seq<set<nat>>
    ghost const start: State

    ghost function D(): Search
      reads this
    {
      Search(dfsNum, born, timestamp, path, Sequences.Members(sccStack), inComponent)
    }

    ghost function G(): Graph {
      CopyGraph(start)
    }

    ghost predicate Valid()
      reads this, solver, solver.nodes, solver.cg
    {
      && solver.Valid() && start.WellFormed() && Sequences.NoDuplicates(sccStack)
      && D().Inv(G())
      && MergedUpTo(start, solver.St(), inComponent)
      && Reported(G(), groups, inComponent)
    }

    constructor (solver: Andersen)
      requires solver.Valid()
      ensures Valid() && this.solver == solver && start == solver.St()
      ensures path == {} && sccStack == [] && groups == []
    {
      this.solver := solver;
      dfsNum, inComponent, timestamp, sccStack := map[], {}, 0, [];
      born, path, groups := map[], {}, [];
      start := solver.St();
      new;
      NothingMerged(start);
      CopyGraphClosed(start);
    }

    // getRep: the current representative, with a node in the constraint graph.
    method GetRep(idx: nat) returns (r: nat)
      requires Valid() && idx < |start.rep|
      modifies solver.nodes`target, solver.cg
      ensures Valid() && solver.nodes.rep == old(solver.nodes.rep)
      ensures idx < |solver.nodes.rep| && r == solver.nodes.rep[idx] && r in solver.cg.graph
      ensures forall n :: solver.St().EdgesOf(n) == old(solver.St().EdgesOf(n))
    {
      hide Search.Inv, Reported, State.WellFormed, MergedUpTo;
      SameSize(start, solver.St(), inComponent, idx);
      r := solver.nodes.GetMergeTarget(idx);
      ghost var t := solver.St();
      solver.cg.GetOrInsertNode(r);
      InsertedNodeInvisible(start, t, solver.St(), inComponent, r);
    }

    // One successor edge of the node being visited.
    method VisitSuccessor(node: nat, child: nat, ghost d0: Search, ghost seen: set<nat>)
      requires Valid() && InVisit(G(), d0, D(), node, seen)
      requires start.IsRep(node) && child in solver.St().EdgesOf(node).copy
      modifies this, solver`pts, solver.nodes, solver.cg
      ensures Valid() && child < |start.rep| && InVisit(G(), d0, D(), node, seen + {start.rep[child]})
      ensures old(dfsNum).Keys <= dfsNum.Keys
      ensures |old(sccStack)| <= |sccStack| && sccStack[..|old(sccStack)|] == old(sccStack)
      decreases G().Keys - dfsNum.Keys, 1
    {
      hide InVisit, Search.Inv, Search.Returned, Reported, MergedUpTo, State.WellFormed, Reaches;
      ghost var d := D();
      InVisitFacts(G(), d0, d, node, seen);
      ChildRep(start, solver.St(), inComponent, node, child);
      ghost var y := start.rep[child];
      var succRep := GetRep(child);
      if succRep !in dfsNum {
        SuccessorReached(G(), d0, d, node, seen, y);
        Visit(succRep);
        VisitedSuccessor(G(), d0, d, D(), node, seen, y);
        ReturnedFacts(G(), d, D(), y);
      } else {
        KnownSuccessor(G(), d0, d, node, seen, y);
      }
      if succRep !in inComponent && dfsNum[node] > dfsNum[succRep] {
        dfsNum := dfsNum[node := dfsNum[succRep]];
      }
      InVisitFacts(G(), d0, D(), node, seen + {y});
    }

    // All successor edges of the node being visited.
    method VisitSuccessors(node: nat, ghost d0: Search)
      requires Valid() && InVisit(G(), d0, D(), node, {})
      requires start.IsRep(node) && node in solver.cg.graph
      modifies this, solver`pts, solver.nodes, solver.cg
      ensures Valid() && node in G() && InVisit(G(), d0, D(), node, G()[node])
      ensures |old(sccStack)| <= |sccStack| && sccStack[..|old(sccStack)|] == old(sccStack)
      decreases G().Keys - dfsNum.Keys, 2
    {
      hide InVisit, Search.Inv, Reported, MergedUpTo, State.WellFormed, Reaches, State.Reps, CopyGraph, Sequences.NoDuplicates;
      InVisitFacts(G(), d0, D(), node, {});
      UntouchedEdges(start, solver.St(), inComponent, node);
      var todo := solver.cg.graph[node].copy;
      ghost var edges := todo;
      RepsOfNone(start, edges - todo);
      while todo != {}
        invariant Valid() && InVisit(G(), d0, D(), node, start.Reps(edges - todo))
        invariant todo <= edges && solver.St().EdgesOf(node).copy == edges == start.EdgesOf(node).copy
        invariant old(dfsNum).Keys <= dfsNum.Keys
        invariant |old(sccStack)| <= |sccStack| && sccStack[..|old(sccStack)|] == old(sccStack)
      {
        var child :| child in todo;
        VisitSuccessor(node, child, d0, start.Reps(edges - todo));
        RepsStep(start, edges - todo, child);
        assert edges - (todo - {child}) == edges - todo + {child};
        todo := todo - {child};
        InVisitFacts(G(), d0, D(), node, start.Reps(edges - todo));
        UntouchedEdges(start, solver.St(), inComponent, node);
      }
      assert edges - todo == edges;
      AllSuccessors(start, node);
    }

    // Collapses the top of the stack into the root.
    method PopNode(cycleNode: nat, node: nat, ghost t: State, ghost done: set<nat>, ghost popped: set<nat>)
      requires solver.Valid() && MergedUpTo(start, t, done) && Popping(start, t, solver.St(), node, popped)
      requires start.IsRep(node) && start.IsRep(cycleNode) && node !in done && cycleNode !in done
      requires cycleNode !in popped && cycleNode != node
      requires sccStack != [] && sccStack[|sccStack| - 1] == cycleNode
      modifies this`inComponent, this`sccStack, solver`pts, solver.nodes, solver.cg
      ensures solver.Valid() && Popping(start, t, solver.St(), node, popped + {cycleNode})
      ensures inComponent == old(inComponent) + {cycleNode}
      ensures sccStack == old(sccStack)[..|old(sccStack)| - 1]
    {
      hide MergedUpTo, Popping, MergesTwo, State.WellFormed, IsRepMap, Acyclic, State.EdgesOf;
      PoppingReps(start, t, solver.St(), done, node, popped, cycleNode);
      var repIdx := solver.nodes.GetMergeTarget(node);
      var cycleIdx := solver.nodes.GetMergeTarget(cycleNode);
      ghost var u := solver.St();
      solver.CollapseNodes(repIdx, cycleIdx);
      PopStep(start, t, u, solver.St(), node, popped, cycleNode);
      inComponent := inComponent + {cycleNode};
      sccStack := sccStack[..|sccStack| - 1];
    }

    // The popping loop.
    method PopComponent(node: nat, ghost d0: Search, ghost d: Search, ghost t: State, ghost stack0: seq<nat>)
      requires solver.Valid() && D() == d && solver.St() == t && Sequences.NoDuplicates(sccStack)
      requires MergedUpTo(start, t, d.done) && start.IsRep(node) && node in G()
      requires InVisit(G(), d0, d, node, G()[node]) && node in d.num && node in d.born && d.num[node] == d.born[node]
      requires |stack0| <= |sccStack| && sccStack[..|stack0|] == stack0 && d0.waiting == Sequences.Members(stack0)
      modifies this`inComponent, this`sccStack, solver`pts, solver.nodes, solver.cg
      ensures solver.Valid() && sccStack == stack0
      ensures inComponent == d.done + {node} + (d.waiting - d0.waiting)
      ensures Popping(start, t, solver.St(), node, d.waiting - d0.waiting)
    {
      hide InVisit, MergedUpTo, State.WellFormed, CopyGraph, Popping, Acyclic, IsRepMap, Sequences.Members;
      InVisitFacts(G(), d0, d, node, G()[node]);
      var myTimeStamp := dfsNum[node];
      ghost var popped: set<nat> := {};
      PopNone(start, t, d.done, node);
      inComponent := inComponent + {node};
      while sccStack != []
        invariant solver.Valid() && Sequences.NoDuplicates(sccStack)
        invariant |stack0| <= |sccStack| && sccStack[..|stack0|] == stack0
        invariant Sequences.Members(sccStack) <= d.waiting && popped == d.waiting - Sequences.Members(sccStack)
        invariant inComponent == d.done + {node} + popped
        invariant Popping(start, t, solver.St(), node, popped)
      {
        var cycleNode := sccStack[|sccStack| - 1];
        TopOfStack(G(), d0, d, node, G()[node], sccStack, stack0);
        if dfsNum[cycleNode] < myTimeStamp {
          break;
        }
        RepOfKey(start, cycleNode);
        PopElements(sccStack);
        PopNode(cycleNode, node, t, d.done, popped);
        popped := popped + {cycleNode};
      }
      assert sccStack == stack0;
    }

    // A root pops the component off the stack, collapses it and reports it.
    method CloseComponent(node: nat, ghost d0: Search, ghost stack0: seq<nat>)
      requires Valid() && start.IsRep(node) && node in G()
      requires InVisit(G(), d0, D(), node, G()[node]) && node in dfsNum && node in born && dfsNum[node] == born[node]
      requires |stack0| <= |sccStack| && sccStack[..|stack0|] == stack0 && d0.waiting == Sequences.Members(stack0)
      modifies this, solver`pts, solver.nodes, solver.cg
      ensures Valid() && D().Returned(G(), d0, node)
      ensures sccStack == stack0
    {
      hide InVisit, Search.Inv, Search.Returned, Reported, MergedUpTo, State.WellFormed, CopyGraph, Popping, Sequences.Members, Acyclic, IsRepMap;
      ghost var d, t := D(), solver.St();
      PopComponent(node, d0, d, t, stack0);
      ghost var group := d.waiting - d0.waiting;
      path := path - {node};
      groups := groups + [{node} + group];
      InVisitFacts(G(), d0, d, node, G()[node]);
      CloseReports(G(), d0, d, node, old(groups));
      EndAsRoot(G(), d0, d, node);
      ClosedGroup(G(), d0, d, node);
      WaitingReps(start, d0, d, node, G()[node]);
      PoppedAll(start, t, solver.St(), d.done, node, group);
      assert D() == d.Close(node, d0.waiting);
      DistinctPrefix(old(sccStack), |stack0|);
    }

    method Visit(node: nat)
      requires Valid()
      requires start.IsRep(node) && node !in dfsNum && node in solver.cg.graph
      requires forall p :: p in path ==> Reaches(G(), p, node)
      modifies this, solver`pts, solver.nodes, solver.cg
      ensures Valid() && D().Returned(G(), old(D()), node)
      ensures |old(sccStack)| <= |sccStack| && sccStack[..|old(sccStack)|] == old(sccStack)
      decreases G().Keys - dfsNum.Keys, 0
    {
      hide InVisit, Search.Inv, Search.Returned, Reported, MergedUpTo, State.WellFormed, CopyGraph, Sequences.Members, Acyclic, IsRepMap, Reaches;
      ghost var d0, stack0 := D(), sccStack;
      RepOfKey(start, node);
      BeginVisit(G(), d0, node);
      var myTimeStamp := timestamp;
      timestamp := timestamp + 1;
      dfsNum := dfsNum[node := myTimeStamp];
      born := born[node := myTimeStamp];
      path := path + {node};
      InVisitFacts(G(), d0, D(), node, {});
      VisitSuccessors(node, d0);
      InVisitFacts(G(), d0, D(), node, G()[node]);
      if myTimeStamp != dfsNum[node] {
        EndAsWaiting(G(), d0, D(), node);
        PushElements(sccStack, node);
        WaitingReps(start, d0, D(), node, G()[node]);
        sccStack := sccStack + [node];
        path := path - {node};
      } else {
        CloseComponent(node, d0, stack0);
      }
    }

    // runOnNode: the stack is empty before and after, and the node's component has been closed.
    method RunOnNode(node: nat)
      requires Valid() && node < |start.rep| && sccStack == [] && path == {}
      modifies this, solver`pts, solver.nodes, solver.cg
      ensures Valid() && sccStack == [] && path == {}
      ensures start.rep[node] in inComponent && old(inComponent) <= inComponent
    {
      hide Search.Inv, Reported, MergedUpTo, State.WellFormed, CopyGraph, Acyclic, IsRepMap, Reaches;
      var repNode := GetRep(node);
      StartNode(start, solver.St(), inComponent, node);
      DoneIsNumbered(G(), D());
      AllDoneAtTop(G(), D());
      if repNode !in dfsNum {
        ghost var d := D();
        Visit(repNode);
        ReturnedFacts(G(), d, D(), repNode);
        NothingLeftWaiting(G(), D());
        NoElements(sccStack);
        AllDoneAtTop(G(), D());
      }
    }

    // run: searches from every candidate.  What has been merged then is whole components of the
    // copy graph, reported in reverse topological order, those of the candidates among them.
    method Run(candidates: set<nat>)
      requires Valid() && sccStack == [] && path == {}
      requires IdsBelow(candidates, |start.rep|)
      modifies this, solver`pts, solver.nodes, solver.cg
      ensures Valid() && sccStack == []
      ensures forall c :: c in candidates ==> c < |start.rep| && start.rep[c] in inComponent
    {
      hide Search.Inv, Reported, MergedUpTo, State.WellFormed, CopyGraph, Acyclic, IsRepMap;
      var todo := candidates;
      while todo != {}
        invariant todo <= candidates && Valid() && sccStack == [] && path == {}
        invariant forall c :: c in candidates - todo ==> c < |start.rep| && start.rep[c] in inComponent
      {
        var node :| node in todo;
        RunOnNode(node);
        todo := todo - {node};
      }
    }
  }

  lemma StartNode(s: State, t: State, done: set<nat>, n: nat)
    requires MergedUpTo(s, t, done) && n < |s.rep|
    ensures |t.rep| == |s.rep| && s.IsRep(t.rep[n])
    ensures s.rep[n] in done || t.rep[n] == s.rep[n]
  {
    hide SameScc, CopyGraph;
    assert t.rep[n] == t.rep[s.rep[n]] && s.IsRep(s.rep[n]);
  }

  // Between top-level visits every numbered node belongs to a closed component.
  lemma AllDoneAtTop(g: Graph, d: Search)
    requires d.Inv(g) && d.path == {}
    ensures d.num.Keys == d.done
  {
    NothingLeftWaiting(g, d);
  }

  lemma PushElements(s: seq<nat>, x: nat)
    requires Sequences.NoDuplicates(s)
    ensures Sequences.Members(s + [x]) == Sequences.Members(s) + {x}
    ensures x !in Sequences.Members(s) ==> Sequences.NoDuplicates(s + [x])
  {
  }

  lemma NoElements(s: seq<nat>)
    ensures Sequences.Members(s) == {} <==> s == []
  {
    if s != [] {
      assert s[0] in Sequences.Members(s);
    }
  }

  lemma DoneIsNumbered(g: Graph, d: Search)
    requires d.Inv(g)
    ensures d.done <= d.num.Keys
  {
  }

  // An open node is anchored on the path, so nothing waits when the path is empty.
  lemma NothingLeftWaiting(g: Graph, d: Search)
    requires d.Inv(g) && d.path == {}
    ensures d.waiting == {}
  {
    forall x ensures x !in d.waiting {
      assert !d.HasAnchor(g, x);
    }
  }

  lemma PopNone(s: State, t: State, done: set<nat>, root: nat)
    requires MergedUpTo(s, t, done)
    ensures Popping(s, t, t, root, {})
  {
    hide SameScc, CopyGraph;
  }

  lemma PoppingReps(s: State, t: State, u: State, done: set<nat>, root: nat, popped: set<nat>, w: nat)
    requires MergedUpTo(s, t, done) && Popping(s, t, u, root, popped)
    requires s.IsRep(root) && s.IsRep(w) && root !in done && w !in done && w !in popped
    ensures t.WellFormed() && t.IsRep(w) && u.IsRep(root) && u.IsRep(w)
  {
    hide SameScc, CopyGraph;
  }

  lemma TopOfStack(g: Graph, d0: Search, d: Search, v: nat, seen: set<nat>, stack: seq<nat>, stack0: seq<nat>)
    requires InVisit(g, d0, d, v, seen) && v in d.num && v in d.born && d.num[v] == d.born[v]
    requires |stack0| <= |stack| && stack != [] && stack[..|stack0|] == stack0 && Sequences.NoDuplicates(stack)
    requires d0.waiting == Sequences.Members(stack0) && Sequences.Members(stack) <= d.waiting
    ensures var top := stack[|stack| - 1];
            && top in d.waiting && top in d.num && top != v && top !in d.done && top in g && top in Sequences.Members(stack)
            && (|stack| > |stack0| ==> d.num[v] <= d.num[top])
            && (|stack| == |stack0| ==> d.num[top] < d.num[v])
  {
    hide Reaches;
    var top := stack[|stack| - 1];
    assert top in Sequences.Members(stack);
    if |stack| > |stack0| {
      forall i | 0 <= i < |stack0| ensures stack0[i] != top {
        assert stack[i] == stack0[i];
      }
      assert d.LeftBehind(g, v, top);
    } else {
      assert stack == stack0;
    }
  }

  lemma PopElements(s: seq<nat>)
    requires s != [] && Sequences.NoDuplicates(s)
    ensures Sequences.Members(s[..|s| - 1]) == Sequences.Members(s) - {s[|s| - 1]}
    ensures Sequences.NoDuplicates(s[..|s| - 1])
  {
    var i := |s| - 1;
    assert s == s[..i] + [s[i]];
  }

  lemma DistinctPrefix(s: seq<nat>, n: nat)
    requires n <= |s| && Sequences.NoDuplicates(s)
    ensures Sequences.NoDuplicates(s[..n])
  {
  }

  lemma RepOfKey(s: State, n: nat)
    ensures n in CopyGraph(s) <==> s.IsRep(n)
  {
  }

  lemma WaitingReps(s: State, d0: Search, d: Search, v: nat, seen: set<nat>)
    requires InVisit(CopyGraph(s), d0, d, v, seen)
    ensures (d.waiting - d0.waiting) !! d.done && v !in d.waiting
    ensures forall x :: x in d.waiting ==> s.IsRep(x)
  {
  }

  lemma RepsOfNone(s: State, ids: set<nat>)
    requires ids == {}
    ensures s.Reps(ids) == {}
  {
  }

  lemma RepsStep(s: State, ids: set<nat>, x: nat)
    requires x < |s.rep|
    ensures s.Reps(ids + {x}) == s.Reps(ids) + {s.rep[x]}
  {
  }

  lemma AllSuccessors(s: State, n: nat)
    requires s.IsRep(n)
    ensures n in CopyGraph(s) && CopyGraph(s)[n] == s.Reps(s.EdgesOf(n).copy)
  {
  }

  lemma SameSize(s: State, t: State, done: set<nat>, n: nat)
    requires MergedUpTo(s, t, done) && n < |s.rep|
    ensures |t.rep| == |s.rep| && t.IsRep(t.rep[n])
  {
    hide SameScc, CopyGraph;
  }
}
