// The points-to solver: propagation over two worklists with lazy cycle collapsing.
module Solver {
  import opened NodeFactory
  import opened PointsTo
  import opened ConstraintGraphs
  import opened Propagation
  import opened Collapse

  class Andersen {
    const nodes: AndersNodeFactory
    const cg: ConstraintGraph
    var pts: map<nat, set<nat>>
    // What lazy cycle detection wants to look at, and the edges it has looked at.
    var cycleCandidates: set<nat>
    var checkedEdges: set<(nat, nat)>

    constructor (nodes: AndersNodeFactory, cg: ConstraintGraph)
      ensures this.nodes == nodes && this.cg == cg && pts == map[]
      ensures cycleCandidates == {} && checkedEdges == {}
    {
      this.nodes, this.cg, pts := nodes, cg, map[];
      cycleCandidates, checkedEdges := {}, {};
    }

    ghost function St(): State
      reads this, nodes, cg
    {
      State(nodes.rep, pts, cg.graph)
    }

    ghost predicate Valid()
      reads this, nodes, cg
    {
      nodes.Valid() && St().WellFormed()
    }

    // Inserts a copy edge between representatives and queues its source when the edge is new.
    method AddCopyEdge(src: nat, dst: nat, next: AndersWorkList)
      requires Valid() && next.Valid()
      requires St().IsRep(src) && St().IsRep(dst)
      requires forall a :: St().Below(a) ==> a(src) <= a(dst)
      modifies cg, next
      ensures Valid() && next.Valid()
      ensures Advances(old(St()), St(), old(next.members), next.members)
      ensures dst in St().Succ(src)
      ensures cg.graph.Keys == old(cg.graph.Keys) + {src}
      ensures forall n :: n in old(cg.graph) ==> cg.graph[n].load == old(cg.graph)[n].load
      ensures forall n :: n in old(cg.graph) ==> cg.graph[n].store == old(cg.graph)[n].store
    {
      hide Advances, State.Below, State.WellFormed, State.Succ;
      ghost var s := St();
      var isNew := cg.InsertCopyEdge(src, dst);
      InsertCopyAdvances(s, St(), src, dst, next.members);
      if isNew {
        next.Enqueue(src);
      }
    }

    // One load edge of "node", for one object "v" that "node" points to.
    method VisitLoadEdge(node: nat, ghost v: nat, vRep: nat, dst: nat, updates: map<nat, nat>, next: AndersWorkList,
                      ghost s: State, ghost work: set<nat>, ghost seen: set<nat>)
      returns (updates': map<nat, nat>)
      requires Valid() && next.Valid()
      requires v in St().Pts(node) && v < |nodes.rep| && vRep == nodes.rep[v]
      requires node in cg.graph && dst in cg.graph[node].load
      requires Advances(s, St(), work, next.members)
      requires updates == StaleIds(nodes.rep, seen)
      requires LoadsLinked(St(), seen, vRep)
      modifies nodes`target, cg, next
      ensures Valid() && next.Valid()
      ensures node in cg.graph && cg.graph[node].load == old(cg.graph)[node].load
      ensures Advances(s, St(), work, next.members)
      ensures updates' == StaleIds(nodes.rep, seen + {dst})
      ensures LoadsLinked(St(), seen + {dst}, vRep)
    {
      hide Advances, State.Below, State.WellFormed, State.Succ, LoadsLinked, StaleIds;
      LoadJustifiesCopy(St(), node, v, dst);
      var tgt := nodes.GetMergeTarget(dst);
      ghost var t, work' := St(), next.members;
      AddCopyEdge(vRep, tgt, next);
      AdvancesTransitive(s, t, St(), work, work', next.members);
      LinkLoad(t, St(), work', next.members, seen, dst, vRep);
      StaleIdsStep(nodes.rep, seen, dst);
      updates' := if tgt != dst then updates[dst := tgt] else updates;
    }

    // For one object "v" that "node" points to: a copy edge from "v" to the target of every
    // load through "node", then the stale load edges are rewritten.
    method AddLoadCopies(node: nat, v: nat, next: AndersWorkList)
      requires Valid() && next.Valid()
      requires node in cg.graph && v in St().Pts(node)
      modifies nodes`target, cg, next
      ensures Valid() && next.Valid()
      ensures node in cg.graph
      ensures Advances(old(St()), St(), old(next.members), next.members)
      ensures v < |nodes.rep| && LoadsLinked(St(), cg.graph[node].load, nodes.rep[v])
    {
      hide Advances, State.Below, LoadsLinked, StaleIds;
      ghost var s := St();
      var updates: map<nat, nat> := map[];
      var vRep := nodes.GetMergeTarget(v);
      var todo := cg.graph[node].load;
      ghost var edges := todo;
      AdvancesReflexive(s, next.members);
      NothingSeen(s, vRep);
      assert edges - todo == {};
      while todo != {}
        invariant Valid() && next.Valid()
        invariant node in cg.graph && cg.graph[node].load == edges && todo <= edges
        invariant Advances(s, St(), old(next.members), next.members)
        invariant updates == StaleIds(nodes.rep, edges - todo)
        invariant LoadsLinked(St(), edges - todo, vRep)
      {
        var dst :| dst in todo;
        updates := VisitLoadEdge(node, v, vRep, dst, updates, next, s, old(next.members), edges - todo);
        assert edges - (todo - {dst}) == edges - todo + {dst};
        todo := todo - {dst};
      }
      assert edges - todo == edges;
      RefreshLoads(node, vRep, updates, next, s, old(next.members));
    }

    // Rewrites the load edges of "node" whose ends have been merged.
    method RefreshLoads(node: nat, ghost vRep: nat, updates: map<nat, nat>, ghost next: AndersWorkList, ghost s: State, ghost work: set<nat>)
      requires Valid() && node in cg.graph
      requires updates == StaleIds(nodes.rep, cg.graph[node].load)
      requires Advances(s, St(), work, next.members)
      requires LoadsLinked(St(), cg.graph[node].load, vRep)
      modifies cg
      ensures Valid() && node in cg.graph
      ensures Advances(s, St(), work, next.members)
      ensures LoadsLinked(St(), cg.graph[node].load, vRep)
    {
      hide Advances, State.Below, State.Succ, State.LoadTo, State.StoreFrom, State.Reps, LoadsLinked, StaleIds;
      ghost var t := St();
      ghost var ids := cg.graph[node].load;
      FreshKeepsReps(t, ids, ids);
      cg.ReplaceLoadEdges(node, updates);
      RewriteAdvances(t, St(), node, ids, next.members);
      AdvancesTransitive(s, t, St(), work, next.members, next.members);
      RefreshedLoadsLinked(t, St(), next.members, node, vRep);
    }

    // One store edge of "node", for one object "v" that "node" points to.
    method VisitStoreEdge(node: nat, ghost v: nat, vRep: nat, dst: nat, updates: map<nat, nat>, next: AndersWorkList,
                      ghost s: State, ghost work: set<nat>, ghost seen: set<nat>)
      returns (updates': map<nat, nat>)
      requires Valid() && next.Valid()
      requires v in St().Pts(node) && v < |nodes.rep| && vRep == nodes.rep[v]
      requires node in cg.graph && dst in cg.graph[node].store
      requires Advances(s, St(), work, next.members)
      requires updates == StaleIds(nodes.rep, seen)
      requires StoresLinked(St(), seen, vRep)
      modifies nodes`target, cg, next
      ensures Valid() && next.Valid()
      ensures node in cg.graph && cg.graph[node].store == old(cg.graph)[node].store
      ensures Advances(s, St(), work, next.members)
      ensures updates' == StaleIds(nodes.rep, seen + {dst})
      ensures StoresLinked(St(), seen + {dst}, vRep)
    {
      hide Advances, State.Below, State.WellFormed, State.Succ, StoresLinked, StaleIds;
      StoreJustifiesCopy(St(), node, v, dst);
      var tgt := nodes.GetMergeTarget(dst);
      ghost var t, work' := St(), next.members;
      AddCopyEdge(tgt, vRep, next);
      AdvancesTransitive(s, t, St(), work, work', next.members);
      LinkStore(t, St(), work', next.members, seen, dst, vRep);
      StaleIdsStep(nodes.rep, seen, dst);
      updates' := if tgt != dst then updates[dst := tgt] else updates;
    }

    // For one object "v" that "node" points to: a copy edge to "v" from the source of every
    // store through "node", then the stale store edges are rewritten.
    method AddStoreCopies(node: nat, v: nat, next: AndersWorkList)
      requires Valid() && next.Valid()
      requires node in cg.graph && v in St().Pts(node)
      modifies nodes`target, cg, next
      ensures Valid() && next.Valid()
      ensures node in cg.graph
      ensures Advances(old(St()), St(), old(next.members), next.members)
      ensures v < |nodes.rep| && StoresLinked(St(), cg.graph[node].store, nodes.rep[v])
    {
      hide Advances, State.Below, StoresLinked, StaleIds;
      ghost var s := St();
      var updates: map<nat, nat> := map[];
      var vRep := nodes.GetMergeTarget(v);
      var todo := cg.graph[node].store;
      ghost var edges := todo;
      AdvancesReflexive(s, next.members);
      NothingSeen(s, vRep);
      assert edges - todo == {};
      while todo != {}
        invariant Valid() && next.Valid()
        invariant node in cg.graph && cg.graph[node].store == edges && todo <= edges
        invariant Advances(s, St(), old(next.members), next.members)
        invariant updates == StaleIds(nodes.rep, edges - todo)
        invariant StoresLinked(St(), edges - todo, vRep)
      {
        var dst :| dst in todo;
        updates := VisitStoreEdge(node, v, vRep, dst, updates, next, s, old(next.members), edges - todo);
        assert edges - (todo - {dst}) == edges - todo + {dst};
        todo := todo - {dst};
      }
      assert edges - todo == edges;
      RefreshStores(node, vRep, updates, next, s, old(next.members));
    }

    // Rewrites the store edges of "node" whose ends have been merged.
    method RefreshStores(node: nat, ghost vRep: nat, updates: map<nat, nat>, ghost next: AndersWorkList, ghost s: State, ghost work: set<nat>)
      requires Valid() && node in cg.graph
      requires updates == StaleIds(nodes.rep, cg.graph[node].store)
      requires Advances(s, St(), work, next.members)
      requires StoresLinked(St(), cg.graph[node].store, vRep)
      modifies cg
      ensures Valid() && node in cg.graph
      ensures Advances(s, St(), work, next.members)
      ensures StoresLinked(St(), cg.graph[node].store, vRep)
    {
      hide Advances, State.Below, State.Succ, State.LoadTo, State.StoreFrom, State.Reps, StoresLinked, StaleIds;
      ghost var t := St();
      ghost var ids := cg.graph[node].store;
      FreshKeepsReps(t, ids, ids);
      cg.ReplaceStoreEdges(node, updates);
      RewriteAdvances(t, St(), node, ids, next.members);
      AdvancesTransitive(s, t, St(), work, next.members, next.members);
      RefreshedStoresLinked(t, St(), next.members, node, vRep);
    }

    // All loads and stores through "node", for one object "v" it points to.
    method VisitObject(node: nat, v: nat, next: AndersWorkList, ghost s: State, ghost work: set<nat>, ghost seen: set<nat>)
      requires Valid() && next.Valid()
      requires node in cg.graph && v in St().Pts(node)
      requires Advances(s, St(), work, next.members)
      requires IndirectDone(St(), node, seen)
      modifies nodes`target, cg, next
      ensures Valid() && next.Valid() && node in cg.graph
      ensures Advances(s, St(), work, next.members)
      ensures IndirectDone(St(), node, seen + {v})
    {
      hide Advances, State.Below, State.WellFormed, LoadsLinked, StoresLinked, IndirectDone;
      ghost var t0, work0 := St(), next.members;
      AddLoadCopies(node, v, next);
      ghost var t1, work1 := St(), next.members;
      AddStoreCopies(node, v, next);
      AdvancesTransitive(s, t0, t1, work, work0, work1);
      AdvancesTransitive(s, t1, St(), work, work1, next.members);
      ObjectDone(t0, t1, St(), work0, work1, next.members, node, v, seen);
    }

    // The indirect constraints of "node".
    method AddIndirectCopies(node: nat, next: AndersWorkList)
      requires Valid() && next.Valid()
      requires node in cg.graph && node in pts
      modifies nodes`target, cg, next
      ensures Valid() && next.Valid() && node in cg.graph
      ensures Advances(old(St()), St(), old(next.members), next.members)
      ensures IndirectDone(St(), node, pts[node])
    {
      hide Advances, State.Below, State.WellFormed, IndirectDone;
      ghost var s := St();
      var todo := pts[node];
      AdvancesReflexive(s, next.members);
      NoObjectSeen(s, node);
      assert pts[node] - todo == {};
      while todo != {}
        invariant Valid() && next.Valid() && node in cg.graph && todo <= pts[node]
        invariant Advances(s, St(), old(next.members), next.members)
        invariant IndirectDone(St(), node, pts[node] - todo)
      {
        var v :| v in todo;
        VisitObject(node, v, next, s, old(next.members), pts[node] - todo);
        assert pts[node] - (todo - {v}) == pts[node] - todo + {v};
        todo := todo - {v};
      }
      assert pts[node] - todo == pts[node];
    }

    // One copy edge of "node": union the points-to set into the target's; when that changes
    // nothing and the sets are equal, the target may lie on a cycle.
    method VisitCopyEdge(node: nat, dst: nat, updates: map<nat, nat>, next: AndersWorkList, enableLCD: bool,
                         ghost s: State, ghost work: set<nat>, ghost seen: set<nat>)
      returns (updates': map<nat, nat>)
      requires Valid() && next.Valid()
      requires node in pts && node in cg.graph && dst in cg.graph[node].copy
      requires IdsBelow(cycleCandidates, |nodes.rep|)
      requires Advances(s, St(), work, next.members)
      requires CopiesDone(St(), node, seen)
      requires updates == StaleIds(nodes.rep, Others(nodes.rep, seen, node))
      modifies this, nodes`target, next
      ensures Valid() && next.Valid()
      ensures node in pts && pts[node] == old(pts)[node]
      ensures IdsBelow(cycleCandidates, |nodes.rep|)
      ensures Advances(s, St(), work, next.members)
      ensures CopiesDone(St(), node, seen + {dst})
      ensures updates' == StaleIds(nodes.rep, Others(nodes.rep, seen + {dst}, node))
      ensures Looked(old(St()), old(checkedEdges), old(cycleCandidates), St(), checkedEdges, cycleCandidates, node, dst, enableLCD)
    {
      hide Advances, State.Below, State.WellFormed, State.Succ, CopiesDone, Others, StaleIds, Looked;
      CopyTarget(St(), node, dst);
      var tgt := nodes.GetMergeTarget(dst);
      OthersStep(nodes.rep, seen, dst, node);
      if node == tgt {
        SelfCopyDone(St(), node, seen, dst);
        LookedAtItself(St(), checkedEdges, cycleCandidates, node, dst, enableLCD);
        updates' := updates;
      } else {
        ghost var t, work' := St(), next.members;
        var tgtPts := if tgt in pts then pts[tgt] else {};
        var isChanged := !(pts[node] <= tgtPts);
        pts := pts[tgt := tgtPts + pts[node]];
        PropagateAdvances(t, St(), node, tgt, work');
        if isChanged {
          next.Enqueue(tgt);
        } else if enableLCD {
          if (node, tgt) !in checkedEdges && pts[node] == pts[tgt] {
            checkedEdges := checkedEdges + {(node, tgt)};
            cycleCandidates := cycleCandidates + {tgt};
          }
        }
        LookedAtOther(t, old(checkedEdges), old(cycleCandidates), St(), checkedEdges, cycleCandidates, node, dst, enableLCD);
        AdvancesTransitive(s, t, St(), work, work', next.members);
        PropagatedCopyDone(t, St(), work', next.members, node, seen, dst);
        StaleIdsStep(nodes.rep, Others(nodes.rep, seen, node), dst);
        updates' := if tgt != dst then updates[dst := tgt] else updates;
      }
    }

    // Propagates the points-to set of "node" along its copy edges.
    method PropagateCopies(node: nat, next: AndersWorkList, enableLCD: bool)
      requires Valid() && next.Valid()
      requires node in pts && node in cg.graph
      requires IdsBelow(cycleCandidates, |nodes.rep|)
      modifies this, nodes`target, cg, next
      ensures Valid() && next.Valid()
      ensures node in pts && pts[node] == old(pts)[node]
      ensures IdsBelow(cycleCandidates, |nodes.rep|)
      ensures Advances(old(St()), St(), old(next.members), next.members)
      ensures forall d :: d in St().Succ(node) ==> St().Pts(node) <= St().Pts(d)
      ensures Suspects(old(St()), old(checkedEdges), old(cycleCandidates), St(), checkedEdges, cycleCandidates, node, enableLCD)
    {
      hide Advances, State.Below, State.WellFormed, State.Succ, CopiesDone, Others, StaleIds, Suspected, Looked;
      ghost var s, checked0, candidates0 := St(), checkedEdges, cycleCandidates;
      var updates: map<nat, nat> := map[];
      var todo := cg.graph[node].copy;
      ghost var edges := todo;
      AdvancesReflexive(s, next.members);
      NoCopySeen(s, node);
      NoneSuspected(s, checked0, candidates0, node, enableLCD);
      assert edges - todo == {};
      while todo != {}
        invariant Valid() && next.Valid() && todo <= edges
        invariant node in pts && pts[node] == old(pts)[node]
        invariant cg.graph == s.graph && nodes.rep == s.rep
        invariant IdsBelow(cycleCandidates, |nodes.rep|)
        invariant Suspected(s, checked0, candidates0, St(), checkedEdges, cycleCandidates, node, edges - todo, enableLCD)
        invariant Advances(s, St(), old(next.members), next.members)
        invariant CopiesDone(St(), node, edges - todo)
        invariant updates == StaleIds(nodes.rep, Others(nodes.rep, edges - todo, node))
      {
        var dst :| dst in todo;
        ghost var t, checked, candidates := St(), checkedEdges, cycleCandidates;
        updates := VisitCopyEdge(node, dst, updates, next, enableLCD, s, old(next.members), edges - todo);
        OneSuspected(s, checked0, candidates0, t, checked, candidates, St(), checkedEdges, cycleCandidates, node, edges - todo, dst, enableLCD);
        assert edges - (todo - {dst}) == edges - todo + {dst};
        todo := todo - {dst};
      }
      assert edges - todo == edges;
      ghost var u := St();
      RefreshCopies(node, updates, next, s, old(next.members));
      AllSuspected(s, checked0, candidates0, u, St(), checkedEdges, cycleCandidates, node, enableLCD);
    }

    // Rewrites the copy edges of "node" whose ends have been merged elsewhere.
    method RefreshCopies(node: nat, updates: map<nat, nat>, ghost next: AndersWorkList, ghost s: State, ghost work: set<nat>)
      requires Valid() && node in cg.graph
      requires updates == StaleIds(nodes.rep, Others(nodes.rep, cg.graph[node].copy, node))
      requires Advances(s, St(), work, next.members)
      requires CopiesDone(St(), node, cg.graph[node].copy)
      modifies cg
      ensures Valid() && node in cg.graph
      ensures Advances(s, St(), work, next.members)
      ensures forall d :: d in St().Succ(node) ==> St().Pts(node) <= St().Pts(d)
      ensures forall x :: St().Pts(x) == old(St()).Pts(x)
    {
      hide Advances, State.Below, State.Succ, State.LoadTo, State.StoreFrom, State.Reps, CopiesDone, StaleIds;
      ghost var t := St();
      ghost var ids := cg.graph[node].copy;
      ghost var sub := Others(nodes.rep, ids, node);
      FreshKeepsReps(t, ids, sub);
      cg.ReplaceCopyEdges(node, updates);
      RewriteKeepsEdges(t, St(), node, sub);
      RewriteAdvances(t, St(), node, sub, next.members);
      AdvancesTransitive(s, t, St(), work, next.members, next.members);
      AllCopiesDone(t, node);
    }

    // One dequeued representative: afterwards all its constraints hold.
    method ProcessNode(node: nat, next: AndersWorkList, enableLCD: bool)
      requires Valid() && next.Valid()
      requires St().IsRep(node)
      requires IdsBelow(cycleCandidates, |nodes.rep|)
      modifies this, nodes`target, cg, next
      ensures Valid() && next.Valid()
      ensures IdsBelow(cycleCandidates, |nodes.rep|)
      ensures Advances(old(St()), St(), old(next.members), next.members)
      ensures St().Done(node)
      ensures !enableLCD ==> cycleCandidates == old(cycleCandidates)
    {
      hide Advances, State.Below, State.WellFormed, State.Done, State.Succ, IndirectDone;
      ghost var s := St();
      AdvancesReflexive(s, next.members);
      if node !in cg.graph || node !in pts {
        NothingToDo(s, node);
      } else {
        AddIndirectCopies(node, next);
        ghost var t, work := St(), next.members;
        PropagateCopies(node, next, enableLCD);
        AdvancesTransitive(s, t, St(), old(next.members), work, next.members);
        NodeDone(t, St(), work, next.members, node);
      }
    }

    // Moves the edges of "src" to "dst".
    method MergeEdges(dst: nat, src: nat)
      requires dst != src
      modifies cg
      ensures MovesEdges(old(St()), St(), dst, src)
    {
      ghost var s := St();
      cg.MergeAndDelete(dst, src);
      assert forall n :: n != dst && n != src ==> St().EdgesOf(n) == cg.EdgesOf(n) == s.EdgesOf(n);
    }

    // collapseNodes: "src" is merged into "dst" with its points-to set and its edges.
    method CollapseNodes(dst: nat, src: nat)
      requires Valid() && St().IsRep(dst) && St().IsRep(src)
      modifies this`pts, nodes, cg
      ensures Valid()
      ensures dst == src ==> St() == old(St())
      ensures dst != src ==> MergesTwo(old(St()), St(), dst, src)
      ensures dst in old(cg.graph) ==> dst in cg.graph
    {
      hide State.WellFormed, MergesTwo, IsRepMap, Acyclic, State.EdgesOf;
      if dst != src {
        ghost var s := St();
        BoundedReps(s, dst, src);
        nodes.MergeNode(dst, src);
        if src in pts {
          pts := pts[dst := (if dst in pts then pts[dst] else {}) + pts[src]];
        }
        ghost var t := St();
        MergeEdges(dst, src);
        pts := pts - {src};
        SameGraphMoves(s, t, St(), dst, src);
        MergesTwoFrom(s, St(), dst, src);
        MergesTwoValid(s, St(), dst, src);
      }
    }
  }

  // Every load target among "ids" has a copy edge from "v"; every store source one to "v".
  ghost predicate LoadsLinked(s: State, ids: set<nat>, v: nat) {
    forall d :: d in ids && d < |s.rep| ==> s.rep[d] in s.Succ(v)
  }

  ghost predicate StoresLinked(s: State, ids: set<nat>, v: nat) {
    forall x :: x in ids && x < |s.rep| ==> v in s.Succ(s.rep[x])
  }

  lemma BoundedReps(s: State, dst: nat, src: nat)
    requires s.IsRep(dst) && s.IsRep(src)
    ensures dst < |s.rep| && src < |s.rep| && s.rep[dst] == dst && s.rep[src] == src
  {
  }

  lemma SameGraphMoves(s: State, t: State, u: State, dst: nat, src: nat)
    requires t.graph == s.graph && MovesEdges(t, u.(pts := t.pts), dst, src)
    ensures MovesEdges(s, u, dst, src)
  {
    assert forall n :: t.EdgesOf(n) == s.EdgesOf(n) && u.EdgesOf(n) == u.(pts := t.pts).EdgesOf(n);
  }

  lemma MergesTwoValid(s: State, t: State, dst: nat, src: nat)
    requires MergesTwo(s, t, dst, src)
    ensures t.WellFormed()
  {
  }

  lemma NothingSeen(s: State, v: nat)
    ensures StaleIds(s.rep, {}) == map[]
    ensures LoadsLinked(s, {}, v) && StoresLinked(s, {}, v)
  {
  }

  lemma LinkLoad(s: State, t: State, w: set<nat>, w': set<nat>, ids: set<nat>, d: nat, v: nat)
    requires Advances(s, t, w, w') && LoadsLinked(s, ids, v)
    requires d < |t.rep| && t.rep[d] in t.Succ(v)
    ensures LoadsLinked(t, ids + {d}, v)
  {
    AdvancesAt(s, t, w, w', v);
  }

  lemma LinkStore(s: State, t: State, w: set<nat>, w': set<nat>, ids: set<nat>, x: nat, v: nat)
    requires Advances(s, t, w, w') && StoresLinked(s, ids, v)
    requires x < |t.rep| && v in t.Succ(t.rep[x])
    ensures StoresLinked(t, ids + {x}, v)
  {
    forall d | d in ids + {x} && d < |t.rep| ensures v in t.Succ(t.rep[d]) {
      AdvancesAt(s, t, w, w', t.rep[d]);
    }
  }

  // Edge ids that do not stand for "node" itself.
  ghost function Others(rep: seq<nat>, ids: set<nat>, node: nat): set<nat> {
    set x | x in ids && x < |rep| && rep[x] != node
  }

  lemma OthersStep(rep: seq<nat>, ids: set<nat>, x: nat, node: nat)
    requires x < |rep|
    ensures Others(rep, ids + {x}, node) == if rep[x] == node then Others(rep, ids, node) else Others(rep, ids, node) + {x}
  {
  }

  // The copy edges "ids" of "n" have been propagated.
  ghost predicate CopiesDone(s: State, n: nat, ids: set<nat>) {
    forall d :: d in ids && d < |s.rep| ==> s.Pts(n) <= s.Pts(s.rep[d])
  }

  /* Lazy cycle detection: which targets are suspected to lie on a cycle. */

  // Looking at the edge to "dst" makes its target a candidate exactly if the sets are equal and the
  // edge has not been looked at before.
  ghost predicate Looked(s: State, checked: set<(nat, nat)>, candidates: set<nat>,
                         s': State, checked': set<(nat, nat)>, candidates': set<nat>, node: nat, dst: nat, lcd: bool) {
    dst < |s.rep| && s'.rep == s.rep && s'.graph == s.graph &&
    var tgt := s.rep[dst];
    && (forall x :: s'.Pts(x) == if x == tgt && tgt != node then s.Pts(x) + s.Pts(node) else s.Pts(x))
    && (if lcd && tgt != node && s.Pts(tgt) == s.Pts(node) && (node, tgt) !in checked then
          checked' == checked + {(node, tgt)} && candidates' == candidates + {tgt}
        else
          checked' == checked && candidates' == candidates)
  }

  lemma LookedAtItself(s: State, checked: set<(nat, nat)>, candidates: set<nat>, node: nat, dst: nat, lcd: bool)
    requires dst < |s.rep| && s.rep[dst] == node
    ensures Looked(s, checked, candidates, s, checked, candidates, node, dst, lcd)
  {
  }

  lemma LookedAtOther(s: State, checked: set<(nat, nat)>, candidates: set<nat>,
                      s': State, checked': set<(nat, nat)>, candidates': set<nat>, node: nat, dst: nat, lcd: bool)
    requires dst < |s.rep| && s.rep[dst] != node
    requires s' == s.(pts := s.pts[s.rep[dst] := s.Pts(s.rep[dst]) + s.Pts(node)])
    requires if s.Pts(node) <= s.Pts(s.rep[dst]) && lcd && (node, s.rep[dst]) !in checked && s'.Pts(node) == s'.Pts(s.rep[dst]) then
               checked' == checked + {(node, s.rep[dst])} && candidates' == candidates + {s.rep[dst]}
             else
               checked' == checked && candidates' == candidates
    ensures Looked(s, checked, candidates, s', checked', candidates', node, dst, lcd)
  {
    assert s.Pts(node) <= s.Pts(s.rep[dst]) ==> s.Pts(s.rep[dst]) + s.Pts(node) == s.Pts(s.rep[dst]);
  }

  // The same after looking at the edges "ids": new candidates have the node's set, and targets that
  // had it and were not looked at before are candidates.
  ghost predicate Suspected(s: State, checked: set<(nat, nat)>, candidates: set<nat>,
                            s': State, checked': set<(nat, nat)>, candidates': set<nat>, node: nat, ids: set<nat>, lcd: bool) {
    && s'.rep == s.rep && s'.graph == s.graph
    && (forall x :: s'.Pts(x) == s.Pts(x) || s'.Pts(x) == s.Pts(x) + s.Pts(node)) && s'.Pts(node) == s.Pts(node)
    && candidates <= candidates' && checked <= checked'
    && (!lcd ==> candidates' == candidates && checked' == checked)
    && (forall x :: x in candidates' && x !in candidates ==>
          x != node && s'.Pts(x) == s.Pts(node) && (node, x) !in checked && exists d :: d in ids && d < |s.rep| && s.rep[d] == x)
    && (forall e :: e in checked' && e !in checked ==> e.0 == node && e.1 in candidates')
    && (lcd ==> forall d :: d in ids && d < |s.rep| && s.rep[d] != node && s.Pts(s.rep[d]) == s.Pts(node) && (node, s.rep[d]) !in checked ==>
          s.rep[d] in candidates')
  }

  // What that says of the node's successors.
  ghost predicate Suspects(s: State, checked: set<(nat, nat)>, candidates: set<nat>,
                           s': State, checked': set<(nat, nat)>, candidates': set<nat>, node: nat, lcd: bool) {
    && candidates <= candidates' && checked <= checked'
    && (!lcd ==> candidates' == candidates && checked' == checked)
    && (forall x :: x in candidates' && x !in candidates ==>
          x != node && x in s.Succ(node) && s'.Pts(x) == s.Pts(node) && (node, x) !in checked)
    && (forall e :: e in checked' && e !in checked ==> e.0 == node && e.1 in candidates')
    && (lcd ==> forall x :: x in s.Succ(node) && x != node && s.Pts(x) == s.Pts(node) && (node, x) !in checked ==> x in candidates')
  }

  lemma NoneSuspected(s: State, checked: set<(nat, nat)>, candidates: set<nat>, node: nat, lcd: bool)
    ensures Suspected(s, checked, candidates, s, checked, candidates, node, {}, lcd)
  {
  }

  lemma OneSuspected(s: State, checked: set<(nat, nat)>, candidates: set<nat>,
                     t: State, checkedT: set<(nat, nat)>, candidatesT: set<nat>,
                     u: State, checkedU: set<(nat, nat)>, candidatesU: set<nat>, node: nat, ids: set<nat>, dst: nat, lcd: bool)
    requires Suspected(s, checked, candidates, t, checkedT, candidatesT, node, ids, lcd)
    requires Looked(t, checkedT, candidatesT, u, checkedU, candidatesU, node, dst, lcd)
    ensures Suspected(s, checked, candidates, u, checkedU, candidatesU, node, ids + {dst}, lcd)
  {
    hide State.Pts;
    var tgt := s.rep[dst];
    assert s.Pts(tgt) == s.Pts(node) ==> t.Pts(tgt) == s.Pts(node);
  }

  lemma AllSuspected(s: State, checked: set<(nat, nat)>, candidates: set<nat>, t: State, u: State,
                     checked': set<(nat, nat)>, candidates': set<nat>, node: nat, lcd: bool)
    requires s.WellFormed() && node in s.graph && (forall x :: u.Pts(x) == t.Pts(x))
    requires Suspected(s, checked, candidates, t, checked', candidates', node, s.graph[node].copy, lcd)
    ensures Suspects(s, checked, candidates, u, checked', candidates', node, lcd)
  {
    hide State.Pts;
    forall x | x in s.Succ(node) ensures exists d :: d in s.graph[node].copy && d < |s.rep| && s.rep[d] == x {
    }
  }

  lemma NoCopySeen(s: State, n: nat)
    ensures CopiesDone(s, n, {}) && StaleIds(s.rep, Others(s.rep, {}, n)) == map[]
  {
  }

  lemma CopyTarget(s: State, n: nat, d: nat)
    requires s.WellFormed() && n in s.graph && d in s.graph[n].copy
    ensures d < |s.rep| && s.IsRep(n) && s.IsRep(s.rep[d]) && s.rep[d] in s.Succ(n)
  {
  }

  lemma SelfCopyDone(s: State, n: nat, ids: set<nat>, d: nat)
    requires CopiesDone(s, n, ids) && d < |s.rep| && s.rep[d] == n
    ensures CopiesDone(s, n, ids + {d})
  {
  }

  lemma PropagatedCopyDone(s: State, t: State, w: set<nat>, w': set<nat>, n: nat, ids: set<nat>, d: nat)
    requires Advances(s, t, w, w') && CopiesDone(s, n, ids)
    requires d < |t.rep| && t.Pts(n) == s.Pts(n) && t.Pts(n) <= t.Pts(t.rep[d])
    ensures CopiesDone(t, n, ids + {d})
  {
  }

  lemma AllCopiesDone(s: State, n: nat)
    requires s.WellFormed() && n in s.graph && CopiesDone(s, n, s.graph[n].copy)
    ensures forall d :: d in s.Succ(n) ==> s.Pts(n) <= s.Pts(d)
  {
  }

  lemma NothingToDo(s: State, n: nat)
    requires n !in s.graph || n !in s.pts
    ensures s.Done(n)
  {
  }

  lemma NodeDone(s: State, t: State, w: set<nat>, w': set<nat>, n: nat)
    requires Advances(s, t, w, w') && t.Pts(n) == s.Pts(n)
    requires IndirectDone(s, n, s.Pts(n))
    requires forall d :: d in t.Succ(n) ==> t.Pts(n) <= t.Pts(d)
    ensures t.Done(n)
  {
    AdvancesKeepsIndirectDone(s, t, w, w', n, s.Pts(n));
    forall v | v in t.Pts(n) && v < |t.rep| ensures ObjectLinked(t, n, t.rep[v]) {
    }
  }

  // The indirect constraints of "n" hold for the objects "vs".
  ghost predicate IndirectDone(s: State, n: nat, vs: set<nat>) {
    forall v :: v in vs && v < |s.rep| ==> ObjectLinked(s, n, s.rep[v])
  }

  ghost predicate ObjectLinked(s: State, n: nat, v: nat) {
    s.LoadTo(n) <= s.Succ(v) && forall x :: x in s.StoreFrom(n) ==> v in s.Succ(x)
  }

  lemma NoObjectSeen(s: State, n: nat)
    ensures IndirectDone(s, n, {})
  {
  }

  lemma AdvancesKeepsIndirectDone(s: State, t: State, w: set<nat>, w': set<nat>, n: nat, vs: set<nat>)
    requires Advances(s, t, w, w') && IndirectDone(s, n, vs)
    ensures IndirectDone(t, n, vs)
  {
    forall v | v in vs && v < |t.rep| ensures ObjectLinked(t, n, t.rep[v]) {
      assert ObjectLinked(s, n, s.rep[v]);
    }
  }

  lemma ObjectDone(s: State, t: State, u: State, w: set<nat>, w': set<nat>, w'': set<nat>, n: nat, v: nat, vs: set<nat>)
    requires Advances(s, t, w, w') && Advances(t, u, w', w'') && IndirectDone(s, n, vs)
    requires v < |s.rep| && n in t.graph && n in u.graph
    requires LoadsLinked(t, t.EdgesOf(n).load, t.rep[v]) && StoresLinked(u, u.EdgesOf(n).store, u.rep[v])
    ensures IndirectDone(u, n, vs + {v})
  {
    AdvancesKeepsIndirectDone(s, t, w, w', n, vs);
    AdvancesKeepsIndirectDone(t, u, w', w'', n, vs);
    AdvancesAt(t, u, w', w'', n);
    AdvancesAt(t, u, w', w'', t.rep[v]);
    assert ObjectLinked(u, n, u.rep[v]);
  }

  lemma RefreshedLoadsLinked(s: State, t: State, w: set<nat>, n: nat, v: nat)
    requires Advances(s, t, w, w)
    requires LoadsLinked(s, s.EdgesOf(n).load, v)
    ensures LoadsLinked(t, t.EdgesOf(n).load, v)
  {
    forall d | d in t.EdgesOf(n).load && d < |t.rep| ensures t.rep[d] in t.Succ(v) {
      assert t.rep[d] in s.LoadTo(n);
    }
  }

  lemma RefreshedStoresLinked(s: State, t: State, w: set<nat>, n: nat, v: nat)
    requires Advances(s, t, w, w)
    requires StoresLinked(s, s.EdgesOf(n).store, v)
    ensures StoresLinked(t, t.EdgesOf(n).store, v)
  {
    forall d | d in t.EdgesOf(n).store && d < |t.rep| ensures v in t.Succ(t.rep[d]) {
      assert t.rep[d] in s.StoreFrom(n);
    }
  }

  lemma LoadJustifiesCopy(s: State, n: nat, v: nat, d: nat)
    requires s.WellFormed() && n in s.graph && v in s.Pts(n) && d in s.EdgesOf(n).load
    ensures v < |s.rep| && d < |s.rep| && s.IsRep(s.rep[v]) && s.IsRep(s.rep[d])
    ensures forall a :: s.Below(a) ==> a(s.rep[v]) <= a(s.rep[d])
  {
    assert s.rep[d] in s.LoadTo(n);
  }

  lemma StoreJustifiesCopy(s: State, n: nat, v: nat, x: nat)
    requires s.WellFormed() && n in s.graph && v in s.Pts(n) && x in s.EdgesOf(n).store
    ensures v < |s.rep| && x < |s.rep| && s.IsRep(s.rep[v]) && s.IsRep(s.rep[x])
    ensures forall a :: s.Below(a) ==> a(s.rep[x]) <= a(s.rep[v])
  {
    assert s.rep[x] in s.StoreFrom(n);
  }
}
