// The analysis of a program without loops: every function is traversed backwards, callees first, and
// each block gets the list of collectives issued from it on, for one communicator.
module CollectiveAnalysis {
  import opened Sequences
  import opened CollectiveLists
  import opened CollectiveRuns
  import opened CollectiveMeaning
  import T = CfgTraversal

  function CfgOf(p: Program, f: nat): T.Cfg
    requires f < |p.funcs|
  {
    T.Cfg(p.funcs[f], p.succ, p.pred, p.rank)
  }

  // A block of one of the first "n" functions.
  ghost predicate BlockBefore(p: Program, n: nat, b: nat) {
    exists f :: 0 <= f < n && f < |p.funcs| && b in p.funcs[f]
  }

  ghost predicate Valid(p: Program) {
    && Ranked(p)
    && (forall f: nat :: f < |p.funcs| ==> T.Valid(CfgOf(p, f)) && NoDuplicates(p.funcs[f]))
    && (forall b :: b in p.succ <==> BlockBefore(p, |p.funcs|, b))
    && (forall b, i :: b in p.code && i in p.code[b] && i.CallCollective? ==> IsWord(i.name) && i.name != "NAVS")
  }

  // Calls lead to functions that come earlier.
  ghost predicate CalleesFirst(p: Program) {
    forall f: nat, b, i :: f < |p.funcs| && b in p.funcs[f] && b in p.code && i in p.code[b] && i.CallFunction? && i.entry in p.succ ==>
      BlockBefore(p, f, i.entry)
  }

  // The list of a block is the one the program defines.
  ghost predicate Correct(p: Program, comm: Option<nat>, l: CollectiveList, b: nat)
    requires Ranked(p) && b in p.succ
  {
    Flat(l) && l.elems == ListOf(p, comm, b)
  }

  ghost predicate AllCorrect(p: Program, comm: Option<nat>, lists: map<nat, CollectiveList>)
    requires Ranked(p)
  {
    forall b :: b in lists ==> b in p.succ && Correct(p, comm, lists[b], b)
  }

  // A list of collectives and marks without a header.
  ghost predicate Flat(l: CollectiveList) {
    l.header == None && Clean(l) && forall i :: 0 <= i < |l.elems| ==> !l.elems[i].Nested?
  }

  lemma FlatExtends(l: CollectiveList, other: CollectiveList)
    requires Flat(l) && Flat(other)
    ensures Flat(ExtendWith(l, other)) && ExtendWith(l, other).elems == l.elems + other.elems
  {
    assert forall i :: 0 <= i < |l.elems + other.elems| ==>
      (l.elems + other.elems)[i] == if i < |l.elems| then l.elems[i] else other.elems[i - |l.elems|];
  }

  function ElemsOf(lists: map<nat, CollectiveList>, b: nat): seq<Element> {
    if b in lists then lists[b].elems else []
  }

  // The lists of some blocks, in order.
  function ListsOf(lists: map<nat, CollectiveList>, bs: seq<nat>): (ls: seq<seq<Element>>)
    ensures |ls| == |bs| && forall i :: 0 <= i < |bs| ==> ls[i] == ElemsOf(lists, bs[i])
  {
    seq(|bs|, i requires 0 <= i < |bs| => ElemsOf(lists, bs[i]))
  }

  // Whether two neighbours have lists that print differently.
  method NeighborsAreNavs(lists: map<nat, CollectiveList>, neighbours: seq<nat>) returns (navs: bool)
    requires forall s :: s in neighbours ==> s in lists && Flat(lists[s])
    ensures navs <==> !AdjacentSame(ListsOf(lists, neighbours))
  {
    hide Clean, Print;
    ghost var ls := ListsOf(lists, neighbours);
    var i := 0;
    while i + 1 < |neighbours|
      invariant 0 <= i && (neighbours != [] ==> i < |neighbours|)
      invariant neighbours != [] ==> AdjacentSame(ls[..i + 1])
    {
      var s, t := neighbours[i], neighbours[i + 1];
      assert s in neighbours && t in neighbours;
      SamePrintSameList(lists[s], lists[t]);
      assert ls[i] == lists[s].elems && ls[i + 1] == lists[t].elems;
      if Print(lists[s]) != Print(lists[t]) {
        return true;
      }
      i := i + 1;
    }
    assert neighbours != [] ==> ls[..i + 1] == ls;
    return false;
  }

  // What a callee's list must be for a call to be accounted for.
  ghost predicate CallOk(p: Program, comm: Option<nat>, lists: map<nat, CollectiveList>, i: Instr, limit: nat)
    requires Ranked(p)
  {
    && (i.CallCollective? ==> IsWord(i.name) && i.name != "NAVS")
    && (i.CallFunction? && i.entry in lists ==> i.entry in p.succ && Correct(p, comm, lists[i.entry], i.entry))
    && (i.CallFunction? && i.entry in p.succ ==> p.rank[i.entry] < limit && i.entry in lists)
  }

  // The elements of one call.
  method ActOnCall(p: Program, comm: Option<nat>, lists: map<nat, CollectiveList>, i: Instr, current: CollectiveList, ghost limit: nat)
    returns (current': CollectiveList)
    requires Ranked(p) && CallOk(p, comm, lists, i, limit) && Flat(current)
    ensures Flat(current') && current'.elems == current.elems + InstrList(p, comm, i, limit)
  {
    hide Ranked, ListOf;
    current' := current;
    if i.CallCollective? && !ShouldIgnore(i, comm) {
      FlatExtends(current, CollectiveList(None, [Coll(i.name)]));
      current' := current.(elems := current.elems + [Coll(i.name)]);
    } else if i.CallFunction? && i.entry in lists {
      FlatExtends(current, lists[i.entry]);
      current' := ExtendWith(current, lists[i.entry]);
    }
  }

  lemma CodeListStep(p: Program, comm: Option<nat>, code: seq<Instr>, k: nat, limit: nat)
    requires Ranked(p) && k < |code|
    requires forall i :: i in code && i.CallFunction? && i.entry in p.succ ==> p.rank[i.entry] < limit
    ensures CodeList(p, comm, code[..k + 1], limit) == CodeList(p, comm, code[..k], limit) + InstrList(p, comm, code[k], limit)
  {
    assert code[..k + 1][..k] == code[..k];
  }

  // The elements a block issues itself, or the mark.
  method CreateFromBlock(p: Program, comm: Option<nat>, lists: map<nat, CollectiveList>, navs: bool, code: seq<Instr>, ghost limit: nat)
    returns (current: CollectiveList)
    requires Ranked(p) && forall i :: i in code ==> CallOk(p, comm, lists, i, limit)
    requires forall i :: i in code && i.CallFunction? && i.entry in p.succ ==> p.rank[i.entry] < limit
    ensures Flat(current)
    ensures current.elems == if navs then [Navs] else CodeList(p, comm, code, limit)
  {
    current := CollectiveList(None, []);
    if navs {
      current := current.(elems := [Navs]);
      return;
    }
    assert Flat(current) && current.elems == CodeList(p, comm, code[..0], limit);
    hide Ranked, CodeList, InstrList, Flat;
    for k := 0 to |code|
      invariant Flat(current) && current.elems == CodeList(p, comm, code[..k], limit)
    {
      assert code[k] in code;
      current := ActOnCall(p, comm, lists, code[k], current, limit);
      CodeListStep(p, comm, code, k, limit);
    }
    assert code[..|code|] == code;
  }

  // The lists found so far are those of the program.
  lemma SuccessorLists(p: Program, comm: Option<nat>, lists: map<nat, CollectiveList>, b: nat)
    requires Ranked(p) && b in p.succ
    requires forall s :: s in p.succ[b] ==> s in lists && s in p.succ && Correct(p, comm, lists[s], s)
    ensures ListsOf(lists, p.succ[b]) == NeighbourLists(p, comm, b)
    ensures OnwardList(p, comm, b) == if p.succ[b] == [] then [] else ElemsOf(lists, p.succ[b][0])
  {
    hide Ranked, ListOf, Flat;
    var ss := p.succ[b];
    forall i | 0 <= i < |ss| ensures ListsOf(lists, ss)[i] == NeighbourLists(p, comm, b)[i] {
      assert ss[i] in p.succ[b];
    }
  }

  // The list of a block, from its own calls and the lists of its successors.
  method Compute(p: Program, comm: Option<nat>, lists: map<nat, CollectiveList>, b: nat) returns (current: CollectiveList)
    requires Ranked(p) && b in p.succ && b in p.code && b in p.rank
    requires forall i :: i in p.code[b] ==> CallOk(p, comm, lists, i, p.rank[b])
    requires forall s :: s in p.succ[b] ==> s in lists && s in p.succ && Correct(p, comm, lists[s], s)
    ensures Correct(p, comm, current, b)
  {
    assert forall i :: i in p.code[b] && i.CallFunction? && i.entry in p.succ ==> p.rank[i.entry] < p.rank[b];
    hide Ranked, ListOf, CodeList, CallOk, Flat, AdjacentSame, ListsOf, OnwardList;
    var navs := NeighborsAreNavs(lists, p.succ[b]);
    current := CreateFromBlock(p, comm, lists, navs, p.code[b], p.rank[b]);
    SuccessorLists(p, comm, lists, b);
    ListUnfolds(p, comm, b);
    if !navs && |p.succ[b]| > 0 {
      var first := p.succ[b][0];
      assert first in p.succ[b];
      FlatExtends(current, lists[first]);
      current := ExtendWith(current, lists[first]);
    }
  }

  // A visited block leaves the queue and its predecessors join it.
  method Advance(g: T.Cfg, ghost order: seq<nat>, queue: seq<nat>, visited: map<nat, T.NodeState>)
    returns (queue': seq<nat>, visited': map<nat, T.NodeState>)
    requires T.Valid(g) && queue != [] && T.Inv(g, order, queue) && T.StatesOk(visited, order, queue)
    requires T.Ready(g, Members(order), queue[0])
    ensures T.Inv(g, order + [queue[0]], queue') && T.StatesOk(visited', order + [queue[0]], queue')
    ensures queue[0] !in order
  {
    var b := queue[0];
    visited' := visited[b := T.Visited];
    T.FrontLeaves(g, order, queue, visited);
    queue', visited' := T.EnqueuePreds(g, b, queue[1..], visited', order + [b]);
    T.VisitKeepsInv(g, order, queue, queue');
  }

  // All that the list of a block is computed from is there.
  lemma BlockIsPrepared(p: Program, comm: Option<nat>, lists: map<nat, CollectiveList>, f: nat, b: nat)
    requires Valid(p) && CalleesFirst(p) && AllCorrect(p, comm, lists) && f < |p.funcs| && b in p.funcs[f]
    requires forall x :: BlockBefore(p, f, x) ==> x in lists
    requires b in p.succ && forall s :: s in p.succ[b] ==> s in lists
    ensures Ranked(p) && b in p.code && b in p.rank
    ensures forall i :: i in p.code[b] ==> CallOk(p, comm, lists, i, p.rank[b])
    ensures forall s :: s in p.succ[b] ==> s in p.succ && Correct(p, comm, lists[s], s)
  {
    hide Correct;
  }

  lemma BlocksOfFunctions(p: Program)
    requires Valid(p)
    ensures forall b :: b in p.succ <==> BlockBefore(p, |p.funcs|, b)
  {
    hide Ranked, BlockBefore, T.Valid, NoDuplicates;
  }

  lemma FunctionCfg(p: Program, f: nat)
    requires Valid(p) && f < |p.funcs|
    ensures T.Valid(CfgOf(p, f)) && NoDuplicates(p.funcs[f])
    ensures forall b :: b in p.funcs[f] ==> b in p.succ
  {
    hide Ranked, T.Valid, NoDuplicates;
    assert forall b :: b in p.funcs[f] ==> BlockBefore(p, |p.funcs|, b);
  }

  lemma NoneBefore(p: Program)
    ensures forall b :: !BlockBefore(p, 0, b)
  {
  }

  lemma NextFunction(p: Program, f: nat, b: nat)
    requires BlockBefore(p, f + 1, b) && f < |p.funcs|
    ensures BlockBefore(p, f, b) || b in p.funcs[f]
  {
  }

  lemma AddCorrect(p: Program, comm: Option<nat>, lists: map<nat, CollectiveList>, b: nat, l: CollectiveList)
    requires Ranked(p) && AllCorrect(p, comm, lists) && b in p.succ && Correct(p, comm, l, b)
    ensures AllCorrect(p, comm, lists[b := l])
  {
    hide Ranked, Correct;
  }

  class CollListVisitor {
    const p: Program
    const comm: Option<nat>
    var lists: map<nat, CollectiveList>

    constructor (p: Program, comm: Option<nat>)
      requires Valid(p)
      ensures this.p == p && this.comm == comm && lists == map[] && Inv()
    {
      this.p, this.comm, this.lists := p, comm, map[];
    }

    ghost predicate Inv() reads this {
      Ranked(p) && Valid(p) && AllCorrect(p, comm, lists)
    }

    // One block, once its successors have been visited.
    method VisitBlock(ghost f: nat, b: nat)
      requires Inv() && CalleesFirst(p) && f < |p.funcs| && b in p.funcs[f]
      requires forall x :: BlockBefore(p, f, x) ==> x in lists
      requires b in p.succ && forall s :: s in p.succ[b] ==> s in lists
      modifies this
      ensures Inv() && lists.Keys == old(lists.Keys) + {b}
    {
      hide Ranked, Valid, Correct, CalleesFirst, CallOk, AllCorrect, BlockBefore;
      BlockIsPrepared(p, comm, lists, f, b);
      var current := Compute(p, comm, lists, b);
      AddCorrect(p, comm, lists, b, current);
      lists := lists[b := current];
    }

    // All blocks of a function, each once and after its successors.
    method Visit(f: nat) returns (ghost order: seq<nat>)
      requires Inv() && CalleesFirst(p) && f < |p.funcs|
      requires forall b :: BlockBefore(p, f, b) ==> b in lists
      modifies this
      ensures Inv() && lists.Keys == old(lists.Keys) + Members(p.funcs[f])
      ensures NoDuplicates(order) && T.AfterSuccessors(CfgOf(p, f), order) && Members(order) == Members(p.funcs[f])
    {
      hide Ranked, Valid, AllCorrect, CalleesFirst, BlockBefore, T.Valid, NoDuplicates, T.Inv, T.StatesOk, T.FirstReady;
      FunctionCfg(p, f);
      var g := CfgOf(p, f);
      var queue, visited := T.Start(g);
      order := [];
      while queue != []
        invariant Inv() && T.Inv(g, order, queue) && T.StatesOk(visited, order, queue)
        invariant lists.Keys == old(lists.Keys) + Members(order)
        decreases Members(g.blocks) - Members(order), T.FirstReady(g, Members(order), queue)
      {
        var b := queue[0];
        T.FrontBlock(g, order, queue);
        var allDone := T.AllDone(g, visited, b, order, queue);
        if !allDone {
          T.PostponeProgress(g, order, queue);
          T.RotationKeepsStates(visited, order, queue);
          queue := queue[1..] + [b];
        } else {
          VisitBlock(f, b);
          queue, visited := Advance(g, order, queue, visited);
          ghost var before := order;
          order := order + [b];
          assert Members(order) == Members(before) + {b};
          assert b in Members(g.blocks) - Members(before);
        }
      }
      T.AllVisited(g, order);
      assert Members(order) == Members(g.blocks);
    }

    // The whole program: a block's list is free of marks exactly when all paths from it issue the
    // same sequence, and then it is that sequence. The mark is reported exactly when a difference
    // is met before any collective.
    method Run()
      requires Inv() && CalleesFirst(p)
      modifies this
      ensures Inv() && lists.Keys == p.succ.Keys
      ensures forall b :: b in p.succ ==> lists[b].elems == ListOf(p, comm, b)
      ensures forall b :: b in p.succ ==> (NavsFree(lists[b].elems) <==> Uniform(Runs(p, comm, b)))
      ensures forall b :: b in p.succ && NavsFree(lists[b].elems) ==> Runs(p, comm, b) == iset{Names(lists[b].elems)}
      ensures forall b :: b in p.succ ==> (IsNavs(lists[b]) <==> FrontOf(p, comm, b) == Differs)
    {
      hide Ranked, Valid, AllCorrect, CalleesFirst, BlockBefore, Runs, ListOf, FrontOf;
      NoneBefore(p);
      for f := 0 to |p.funcs|
        invariant Inv() && CalleesFirst(p)
        invariant forall b :: BlockBefore(p, f, b) ==> b in lists
      {
        ghost var order := Visit(f);
        forall b | BlockBefore(p, f + 1, b) ensures b in lists {
          NextFunction(p, f, b);
        }
      }
      ListsMean(p, comm, lists);
    }
  }

  lemma ListsMean(p: Program, comm: Option<nat>, lists: map<nat, CollectiveList>)
    requires Ranked(p) && Valid(p) && AllCorrect(p, comm, lists)
    requires forall b :: BlockBefore(p, |p.funcs|, b) ==> b in lists
    ensures lists.Keys == p.succ.Keys
    ensures forall b :: b in p.succ ==> lists[b].elems == ListOf(p, comm, b)
    ensures forall b :: b in p.succ ==> (NavsFree(lists[b].elems) <==> Uniform(Runs(p, comm, b)))
    ensures forall b :: b in p.succ && NavsFree(lists[b].elems) ==> Runs(p, comm, b) == iset{Names(lists[b].elems)}
    ensures forall b :: b in p.succ ==> (IsNavs(lists[b]) <==> FrontOf(p, comm, b) == Differs)
  {
    hide Ranked, Valid, Runs, NavsFree, BlockBefore, Means, ListOf, FrontOf;
    BlocksOfFunctions(p);
    forall b | b in p.succ
      ensures b in lists && lists[b].elems == ListOf(p, comm, b)
      ensures NavsFree(lists[b].elems) <==> Uniform(Runs(p, comm, b))
      ensures NavsFree(lists[b].elems) ==> Runs(p, comm, b) == iset{Names(lists[b].elems)}
      ensures IsNavs(lists[b]) <==> FrontOf(p, comm, b) == Differs
    {
      assert Correct(p, comm, lists[b], b);
      ListMeans(p, comm, b);
      MeansUniform(lists[b].elems, Runs(p, comm, b));
      MarkIffDiffersFirst(p, comm, b, lists[b]);
    }
  }

  /* The analysis on the program with the hidden branch. */

  lemma BarrierTargets()
    ensures var p := BarrierThenBranch();
      && p.succ == map[0 := [1], 1 := [2, 3], 2 := [], 3 := []]
      && p.pred == map[0 := [], 1 := [0], 2 := [1], 3 := [1]]
      && p.rank == map[0 := 2, 1 := 1, 2 := 0, 3 := 0] && p.funcs == [[0, 1, 2, 3]]
  {
  }

  lemma BarrierForward(p: Program, b: nat, s: nat)
    requires p == BarrierThenBranch() && b in p.succ && s in p.succ[b]
    ensures s in p.succ && s in p.pred && b in p.pred[s] && s in p.rank && b in p.rank && p.rank[s] < p.rank[b]
  {
    BarrierTargets();
    hide BarrierThenBranch;
    assert [1][0] == 1 && [2, 3][0] == 2 && [2, 3][1] == 3 && [0][0] == 0;
  }

  lemma BarrierBackward(p: Program, b: nat, s: nat)
    requires p == BarrierThenBranch() && s in p.pred && b in p.pred[s]
    ensures b in p.succ && s in p.succ[b]
  {
    BarrierTargets();
    hide BarrierThenBranch;
    assert [1][0] == 1 && [2, 3][0] == 2 && [2, 3][1] == 3 && [0][0] == 0;
  }

  lemma BarrierKeys(p: Program)
    requires p == BarrierThenBranch()
    ensures p.pred.Keys == p.succ.Keys == p.rank.Keys && |p.funcs| == 1
    ensures forall b :: b in p.funcs[0] <==> b in p.succ
  {
    BarrierTargets();
    hide BarrierThenBranch;
    assert p.funcs[0] == [0, 1, 2, 3];
  }

  lemma BarrierGraph(p: Program)
    requires p == BarrierThenBranch()
    ensures |p.funcs| == 1 && T.Valid(CfgOf(p, 0))
  {
    hide BarrierThenBranch;
    BarrierKeys(p);
    var g := CfgOf(p, 0);
    forall b, s | b in g.blocks && s in g.succ[b] ensures s in g.blocks && b in g.pred[s] && g.rank[s] < g.rank[b] {
      BarrierForward(p, b, s);
    }
    forall b, s | s in g.blocks && b in g.pred[s] ensures b in g.blocks && s in g.succ[b] {
      BarrierBackward(p, b, s);
    }
  }

  lemma BarrierBlocks()
    ensures var p := BarrierThenBranch();
      && |p.funcs| == 1 && p.funcs[0] == [0, 1, 2, 3]
      && (forall b :: b in p.succ <==> BlockBefore(p, 1, b))
  {
    var p := BarrierThenBranch();
    assert p.funcs[0] == [0, 1, 2, 3];
    forall b ensures b in p.succ <==> BlockBefore(p, 1, b) {
      if b in p.succ {
        assert b in p.funcs[0];
      }
    }
  }

  lemma BarrierCalls()
    ensures CalleesFirst(BarrierThenBranch())
    ensures var p := BarrierThenBranch();
      forall b, i :: b in p.code && i in p.code[b] && i.CallCollective? ==> IsWord(i.name) && i.name != "NAVS"
  {
    var p := BarrierThenBranch();
    forall b, i | b in p.code && i in p.code[b] ensures i == BARRIER || i == BCAST {
      assert p.code[b] == [BARRIER] || p.code[b] == [] || p.code[b] == [BCAST];
    }
    assert IsWord("MPI_Barrier") && IsWord("MPI_Bcast");
    assert "MPI_Barrier"[0] == 'M' && "NAVS"[0] == 'N';
  }

  lemma BarrierIsValid()
    ensures Valid(BarrierThenBranch()) && CalleesFirst(BarrierThenBranch())
  {
    hide Ranked, BarrierThenBranch, T.Valid, BlockBefore, NoDuplicates, IsWord, CfgOf, CalleesFirst;
    BarrierIsRanked();
    BarrierFunction();
    BarrierBlocks();
    BarrierCalls();
  }

  lemma BarrierFunction()
    ensures var p := BarrierThenBranch(); |p.funcs| == 1 && T.Valid(CfgOf(p, 0)) && NoDuplicates(p.funcs[0])
  {
    BarrierBlocks();
    hide BarrierThenBranch, T.Valid, CfgOf, BlockBefore;
    BarrierGraph(BarrierThenBranch());
    assert NoDuplicates([0, 1, 2, 3]);
  }

  // The first block's list is not reported, though the sequences from it differ.
  method HiddenDifference() returns (list: CollectiveList)
    ensures list.elems == [Coll("MPI_Barrier"), Navs] && !IsNavs(list)
    ensures Ranked(BarrierThenBranch()) && Differ(Runs(BarrierThenBranch(), None, 0))
  {
    hide Ranked, Valid, CalleesFirst, ListOf, Runs, FrontOf;
    BarrierIsValid();
    BarrierHidesBranch(None);
    var v := new CollListVisitor(BarrierThenBranch(), None);
    v.Run();
    list := v.lists[0];
  }
}
