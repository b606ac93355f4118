// The list of an innermost loop: its body is traversed forwards from the header, and the list of the
// block that jumps back, wrapped with the header, stands for one iteration.
module LoopLists {
  import opened Sequences
  import opened CollectiveLists
  import opened CollectiveRuns
  import opened CollectiveMeaning
  import opened CollectiveAnalysis
  import T = CfgTraversal

  // "preds" and "succs" are those of the control-flow graph; the header's predecessors are not
  // looked at. "rank" shows that the body has no cycle but the one through the header.
  datatype Loop = Loop(header: nat, latch: nat, blocks: seq<nat>, preds: map<nat, seq<nat>>, succs: map<nat, seq<nat>>,
                       code: map<nat, seq<Instr>>, ghost rank: map<nat, nat>)

  ghost predicate ValidLoop(l: Loop) {
    && NoDuplicates(l.blocks) && l.header in l.blocks && l.latch in l.blocks
    && (forall b :: b in l.blocks ==> b in l.preds && b in l.succs && b in l.code && b in l.rank)
    && (forall b :: b in l.blocks && b != l.header ==> l.preds[b] != [])
    && (forall b, q {:trigger q in l.preds[b]} :: b in l.blocks && b != l.header && q in l.preds[b] ==>
          q in l.blocks && b in l.succs[q] && l.rank[q] < l.rank[b])
    && (forall b, s {:trigger s in l.succs[b]} :: b in l.blocks && s in l.blocks && s != l.header && s in l.succs[b] ==>
          b in l.preds[s])
    && (forall b, i :: b in l.blocks && i in l.code[b] && i.CallCollective? ==> IsWord(i.name) && i.name != "NAVS")
    && (forall b, i :: b in l.blocks && i in l.code[b] && i.CallFunction? ==> i.entry !in l.blocks)
  }

  // The body as the traversal sees it: a block depends on its predecessors, the header on nothing.
  function Body(l: Loop): T.Cfg {
    T.Cfg(l.blocks, map b | b in l.blocks && b in l.preds :: if b == l.header then [] else l.preds[b],
          map b | b in l.blocks && b in l.succs :: Inside(l, l.succs[b]), l.rank)
  }

  lemma ReadyInBody(l: Loop, done: set<nat>, b: nat)
    requires T.Ready(Body(l), done, b)
    ensures b in l.blocks && b in l.preds
    ensures b != l.header ==> forall q :: q in l.preds[b] ==> q in done
  {
  }

  // The targets that are blocks of the loop other than the header.
  function Inside(l: Loop, targets: seq<nat>): (r: seq<nat>)
    ensures forall x :: x in r <==> x in targets && x in l.blocks && x != l.header
  {
    if targets == [] then [] else
      var init, x := targets[..|targets| - 1], targets[|targets| - 1];
      assert targets == init + [x];
      Inside(l, init) + if x in l.blocks && x != l.header then [x] else []
  }

  lemma BodyIsValid(l: Loop)
    requires ValidLoop(l)
    ensures T.Valid(Body(l))
  {
  }

  /* What one iteration can issue by direct calls. */

  // A program without functions to call.
  function NoFunctions(): (p: Program)
    ensures Ranked(p) && p.succ == map[]
  {
    Program([], map[], map[], map[], map[])
  }

  ghost function Direct(comm: Option<nat>, code: seq<Instr>): Words {
    CodeRuns(NoFunctions(), comm, code, 0)
  }

  // The sequences along the paths from the header to a block, the block included and the header not.
  ghost function PathRuns(l: Loop, comm: Option<nat>, b: nat): Words
    requires ValidLoop(l) && b in l.blocks
    decreases l.rank[b], 1
  {
    if b == l.header then iset{[]} else Concat(Union(PredRuns(l, comm, b)), Direct(comm, l.code[b]))
  }

  ghost function PredRuns(l: Loop, comm: Option<nat>, b: nat): (r: seq<Words>)
    requires ValidLoop(l) && b in l.blocks && b != l.header
    ensures |r| == |l.preds[b]|
    ensures forall i :: 0 <= i < |r| ==>
      l.preds[b][i] in l.preds[b] && l.preds[b][i] in l.blocks && r[i] == PathRuns(l, comm, l.preds[b][i])
    decreases l.rank[b], 0
  {
    var qs := l.preds[b];
    assert forall i :: 0 <= i < |qs| ==> qs[i] in l.preds[b];
    seq(|qs|, i requires 0 <= i < |qs| => PathRuns(l, comm, qs[i]))
  }

  // One iteration: from the header to the block that jumps back.
  ghost function IterationRuns(l: Loop, comm: Option<nat>): Words
    requires ValidLoop(l)
  {
    PathRuns(l, comm, l.latch)
  }

  // "k" iterations.
  ghost function Repeated(a: Words, k: nat): Words {
    if k == 0 then iset{[]} else Concat(Repeated(a, k - 1), a)
  }

  function Times(w: seq<string>, k: nat): seq<string> {
    if k == 0 then [] else Times(w, k - 1) + w
  }

  // If one iteration can issue just one sequence, "k" of them issue it "k" times.
  lemma {:induction false} RepeatedSingle(w: seq<string>, k: nat)
    ensures Repeated(iset{w}, k) == iset{Times(w, k)}
  {
    if k > 0 {
      RepeatedSingle(w, k - 1);
      ConcatSingle(Times(w, k - 1), w);
    }
  }

  ghost predicate CorrectIn(l: Loop, comm: Option<nat>, list: CollectiveList, b: nat)
    requires ValidLoop(l) && b in l.blocks
  {
    Flat(list) && Means(list.elems, PathRuns(l, comm, b)) && MarkInFront(list.elems)
  }

  // A list that is not free of marks has one in front, where it is looked for.
  predicate MarkInFront(es: seq<Element>) {
    NavsFree(es) || es[0] == Navs
  }

  // Direct calls contribute no mark.
  lemma {:induction false} DirectCallsFree(comm: Option<nat>, code: seq<Instr>)
    ensures NavsFree(CodeList(NoFunctions(), comm, code, 0))
  {
    if code != [] {
      var init, last := code[..|code| - 1], code[|code| - 1];
      DirectCallsFree(comm, init);
      NamesConcat(CodeList(NoFunctions(), comm, init, 0), InstrList(NoFunctions(), comm, last, 0));
    }
  }

  lemma DirectMeans(comm: Option<nat>, code: seq<Instr>)
    ensures Means(CodeList(NoFunctions(), comm, code, 0), Direct(comm, code))
  {
    CodeListMeans(NoFunctions(), comm, code, 0);
  }

  lemma MarkStaysInFront(es: seq<Element>, own: seq<Element>)
    requires MarkInFront(es) && NavsFree(own)
    ensures MarkInFront(es + own)
  {
    NamesConcat(es, own);
  }

  ghost predicate AllCorrectIn(l: Loop, comm: Option<nat>, lists: map<nat, CollectiveList>)
    requires ValidLoop(l)
  {
    forall b :: b in lists ==> b in l.blocks && CorrectIn(l, comm, lists[b], b)
  }

  // The lists of the predecessors followed by the block's own elements mean the paths to the block.
  lemma PathMeans(l: Loop, comm: Option<nat>, lists: map<nat, CollectiveList>, b: nat, own: seq<Element>)
    requires ValidLoop(l) && b in l.blocks && b != l.header && l.preds[b] != []
    requires forall q :: q in l.preds[b] ==> q in lists && q in l.blocks && Means(lists[q].elems, PathRuns(l, comm, q))
    requires Means(own, Direct(comm, l.code[b]))
    ensures if AdjacentSame(ListsOf(lists, l.preds[b])) then Means(lists[l.preds[b][0]].elems + own, PathRuns(l, comm, b))
            else Differ(PathRuns(l, comm, b))
  {
    var qs := l.preds[b];
    var ls, ws := ListsOf(lists, qs), PredRuns(l, comm, b);
    assert PathRuns(l, comm, b) == Concat(Union(ws), Direct(comm, l.code[b]));
    hide ValidLoop, PathRuns, PredRuns, Direct, Concat, Union, Means, Differ, AdjacentSame;
    forall i | 0 <= i < |ls| ensures Means(ls[i], ws[i]) {
      assert qs[i] in l.preds[b];
    }
    UnionMeans(ls, ws);
    assert qs[0] in l.preds[b] && ls[0] == lists[qs[0]].elems;
    if AdjacentSame(ls) {
      MeansConcat(ls[0], Union(ws), own, Direct(comm, l.code[b]));
    } else {
      SomethingIn(own, Direct(comm, l.code[b]));
      DifferIsSomething(Union(ws));
      ConcatDiffers(Union(ws), Direct(comm, l.code[b]));
    }
  }

  lemma FlatPrepends(l: CollectiveList, other: CollectiveList)
    requires Flat(l) && Flat(other)
    ensures Flat(PrependWith(l, other)) && PrependWith(l, other).elems == other.elems + l.elems
  {
    FlatExtends(other, l);
  }

  // Calls to functions find no list in the loop's map, so only direct calls count.
  lemma BlockIsPrepared(l: Loop, comm: Option<nat>, lists: map<nat, CollectiveList>, b: nat)
    requires ValidLoop(l) && b in l.blocks && b != l.header && AllCorrectIn(l, comm, lists)
    requires forall q :: q in l.preds[b] ==> q in lists
    ensures l.preds[b] != [] && forall i :: i in l.code[b] ==> CallOk(NoFunctions(), comm, lists, i, 0)
    ensures forall i :: i in l.code[b] && i.CallFunction? ==> i.entry !in NoFunctions().succ
    ensures forall q :: q in l.preds[b] ==> q in l.blocks && CorrectIn(l, comm, lists[q], q)
  {
    hide CorrectIn;
  }

  // A block of the loop: nothing for the header, else the predecessors' list and its own calls.
  method VisitBlock(l: Loop, comm: Option<nat>, lists: map<nat, CollectiveList>, b: nat) returns (current: CollectiveList)
    requires ValidLoop(l) && b in l.blocks && AllCorrectIn(l, comm, lists)
    requires b != l.header ==> forall q :: q in l.preds[b] ==> q in lists
    ensures CorrectIn(l, comm, current, b)
  {
    current := CollectiveList(None, []);
    if b == l.header {
      NothingMeans();
      return;
    }
    hide ValidLoop, Flat, Means, PathRuns, CodeRuns, CodeList, Direct, CallOk, NoFunctions, ListsOf, AdjacentSame, Differ, PrependWith, Ranked;
    var p := NoFunctions();
    BlockIsPrepared(l, comm, lists, b);
    var navs := NeighborsAreNavs(lists, l.preds[b]);
    current := CreateFromBlock(p, comm, lists, navs, l.code[b], 0);
    DirectMeans(comm, l.code[b]);
    DirectCallsFree(comm, l.code[b]);
    PathMeans(l, comm, lists, b, CodeList(p, comm, l.code[b], 0));
    hide MarkInFront, NavsFree;
    if navs {
      MarkMeans(PathRuns(l, comm, b));
    } else {
      var first := l.preds[b][0];
      assert first in l.preds[b];
      FlatPrepends(current, lists[first]);
      MarkStaysInFront(lists[first].elems, current.elems);
      current := PrependWith(current, lists[first]);
    }
  }

  /* The traversal. */

  // The successors of a visited block: those in the loop join the queue unless seen before, those
  // outside are where the loop leads to.
  method EnqueueSuccessors(l: Loop, b: nat, queue0: seq<nat>, visited0: map<nat, T.NodeState>, exits0: set<nat>, ghost order: seq<nat>)
    returns (queue: seq<nat>, visited: map<nat, T.NodeState>, exits: set<nat>)
    requires b in l.succs && NoDuplicates(queue0) && T.StatesOk(visited0, order, queue0)
    requires l.header in order && (forall x :: x in order ==> x in l.blocks) && (forall x :: x in queue0 ==> x in l.blocks)
    ensures NoDuplicates(queue) && T.StatesOk(visited, order, queue)
    ensures forall x :: x in queue <==> x in queue0 || (x in Inside(l, l.succs[b]) && x !in order)
    ensures exits == exits0 + set x | x in l.succs[b] && x !in l.blocks
  {
    queue, visited, exits := queue0, visited0, exits0;
    for i := 0 to |l.succs[b]|
      invariant NoDuplicates(queue) && T.StatesOk(visited, order, queue)
      invariant forall x :: x in queue <==> x in queue0 || (x in l.succs[b][..i] && x in l.blocks && x !in order)
      invariant exits == exits0 + set x | x in l.succs[b][..i] && x !in l.blocks
    {
      var x := l.succs[b][i];
      assert l.succs[b][..i + 1] == l.succs[b][..i] + [x];
      if T.StateOf(visited, x) == T.Unvisited {
        if x in l.blocks {
          visited, queue := visited[x := T.Pushed], queue + [x];
        } else {
          exits := exits + {x};
        }
      }
    }
    assert l.succs[b][..|l.succs[b]|] == l.succs[b];
  }

  lemma OnlyHeaderStarts(l: Loop, b: nat)
    requires ValidLoop(l) && b in l.blocks && b in Body(l).succ && Body(l).succ[b] == []
    ensures b == l.header
  {
    hide Inside;
  }

  lemma StartInv(l: Loop)
    requires ValidLoop(l)
    ensures T.Valid(Body(l)) && T.Inv(Body(l), [], [l.header])
    ensures T.StatesOk(map[l.header := T.Pushed], [], [l.header])
  {
    BodyIsValid(l);
    var g := Body(l);
    assert g.blocks == l.blocks && l.header in l.blocks;
    forall b | b in g.blocks && b in g.succ && g.succ[b] == [] ensures b == l.header {
      OnlyHeaderStarts(l, b);
    }
    hide ValidLoop, Body, T.Inv, T.StatesOk;
    T.StartAt(g, l.header);
  }

  // A visited block leaves the queue and its successors join it.
  method Advance(l: Loop, ghost order: seq<nat>, queue: seq<nat>, visited: map<nat, T.NodeState>, exits: set<nat>)
    returns (queue': seq<nat>, visited': map<nat, T.NodeState>, exits': set<nat>)
    requires ValidLoop(l) && T.Valid(Body(l)) && queue != [] && T.Inv(Body(l), order, queue) && T.StatesOk(visited, order, queue)
    requires T.Ready(Body(l), Members(order), queue[0]) && (queue[0] == l.header || l.header in order)
    ensures T.Inv(Body(l), order + [queue[0]], queue') && T.StatesOk(visited', order + [queue[0]], queue')
    ensures queue[0] in l.succs && exits' == exits + set x | x in l.succs[queue[0]] && x !in l.blocks
  {
    var b := queue[0];
    T.FrontBlock(Body(l), order, queue);
    T.FrontLeaves(Body(l), order, queue, visited);
    queue', visited', exits' := EnqueueSuccessors(l, b, queue[1..], visited[b := T.Visited], exits, order + [b]);
    T.VisitKeepsInv(Body(l), order, queue, queue');
  }

  // The blocks outside the loop that some of the given blocks jump to.
  ghost predicate IsExitOf(l: Loop, from: seq<nat>, x: nat) {
    x !in l.blocks && exists b :: b in from && b in l.succs && x in l.succs[b]
  }

  // The lists and exits found so far.
  ghost predicate Found(l: Loop, comm: Option<nat>, order: seq<nat>, lists: map<nat, CollectiveList>, exits: set<nat>)
    requires ValidLoop(l)
  {
    && AllCorrectIn(l, comm, lists) && lists.Keys == Members(order)
    && (forall x :: x in exits <==> IsExitOf(l, order, x))
  }

  lemma FoundMore(l: Loop, comm: Option<nat>, order: seq<nat>, lists: map<nat, CollectiveList>, exits: set<nat>,
                  b: nat, list: CollectiveList, exits': set<nat>)
    requires ValidLoop(l) && Found(l, comm, order, lists, exits) && b in l.blocks && b in l.succs && CorrectIn(l, comm, list, b)
    requires exits' == exits + set x | x in l.succs[b] && x !in l.blocks
    ensures Found(l, comm, order + [b], lists[b := list], exits')
  {
    hide CorrectIn, ValidLoop;
    assert forall x :: x in order + [b] <==> x in order || x == b;
    forall x ensures IsExitOf(l, order + [b], x) <==> IsExitOf(l, order, x) || (x in l.succs[b] && x !in l.blocks) {
      if x in l.succs[b] && x !in l.blocks {
        assert b in order + [b];
      }
    }
  }

  // The header goes first.
  ghost predicate HeaderFirst(l: Loop, order: seq<nat>, queue: seq<nat>) {
    if order == [] then queue == [l.header] else l.header in order
  }

  // The front block, all of whose predecessors have been visited.
  method VisitNext(l: Loop, comm: Option<nat>, ghost order: seq<nat>, queue: seq<nat>, visited: map<nat, T.NodeState>,
                   lists: map<nat, CollectiveList>, exits: set<nat>)
    returns (queue': seq<nat>, visited': map<nat, T.NodeState>, lists': map<nat, CollectiveList>, exits': set<nat>)
    requires ValidLoop(l) && T.Valid(Body(l)) && queue != [] && T.Inv(Body(l), order, queue) && T.StatesOk(visited, order, queue)
    requires T.Ready(Body(l), Members(order), queue[0]) && HeaderFirst(l, order, queue)
    requires Found(l, comm, order, lists, exits)
    ensures T.Inv(Body(l), order + [queue[0]], queue') && T.StatesOk(visited', order + [queue[0]], queue')
    ensures HeaderFirst(l, order + [queue[0]], queue') && Found(l, comm, order + [queue[0]], lists', exits')
    ensures Members(order + [queue[0]]) == Members(order) + {queue[0]}
    ensures queue[0] in Members(l.blocks) - Members(order)
  {
    hide ValidLoop, T.Valid, T.Inv, T.StatesOk, AllCorrectIn, IsExitOf, CorrectIn, Body, T.Ready;
    var b := queue[0];
    T.FrontBlock(Body(l), order, queue);
    ReadyInBody(l, Members(order), b);
    assert Members(order + [b]) == Members(order) + {b};
    var current := VisitBlock(l, comm, lists, b);
    queue', visited', exits' := Advance(l, order, queue, visited, exits);
    FoundMore(l, comm, order, lists, exits, b, current, exits');
    lists' := lists[b := current];
  }

  // The body of the loop: every block's list, and where the loop leads to.
  method TraverseBody(l: Loop, comm: Option<nat>) returns (lists: map<nat, CollectiveList>, exits: set<nat>)
    requires ValidLoop(l)
    ensures Found(l, comm, l.blocks, lists, exits)
  {
    hide ValidLoop, T.Valid, T.Inv, T.StatesOk, T.FirstReady, T.Ready, Found;
    lists, exits := map[], {};
    StartInv(l);
    NothingFound(l, comm);
    var queue: seq<nat> := [l.header];
    var visited: map<nat, T.NodeState> := map[l.header := T.Pushed];
    ghost var order: seq<nat> := [];
    var g := Body(l);
    while queue != []
      invariant T.Inv(g, order, queue) && T.StatesOk(visited, order, queue)
      invariant HeaderFirst(l, order, queue) && Found(l, comm, order, lists, exits)
      decreases Members(l.blocks) - Members(order), T.FirstReady(g, Members(order), queue)
    {
      var b := queue[0];
      T.FrontBlock(g, order, queue);
      var allDone := T.AllDone(g, visited, b, order, queue);
      if !allDone {
        T.PostponeProgress(g, order, queue);
        T.RotationKeepsStates(visited, order, queue);
        queue := queue[1..] + [b];
      } else {
        queue, visited, lists, exits := VisitNext(l, comm, order, queue, visited, lists, exits);
        order := order + [b];
      }
    }
    T.AllVisited(g, order);
    SameFound(l, comm, order, lists, exits);
  }

  lemma NothingFound(l: Loop, comm: Option<nat>)
    requires ValidLoop(l)
    ensures Found(l, comm, [], map[], {})
  {
    hide ValidLoop;
  }

  lemma SameFound(l: Loop, comm: Option<nat>, order: seq<nat>, lists: map<nat, CollectiveList>, exits: set<nat>)
    requires ValidLoop(l) && Found(l, comm, order, lists, exits) && forall b :: b in l.blocks <==> b in order
    ensures Found(l, comm, l.blocks, lists, exits)
  {
    hide ValidLoop, AllCorrectIn;
    assert Members(order) == Members(l.blocks);
    assert forall x :: IsExitOf(l, order, x) <==> IsExitOf(l, l.blocks, x);
  }

  lemma MarkedIffDifferent(l: CollectiveList, a: Words)
    requires Means(l.elems, a) && MarkInFront(l.elems)
    ensures IsNavs(l) <==> !Uniform(a)
  {
    MeansUniform(l.elems, a);
  }

  // The whole loop. The list at the header has the mark in front exactly when some paths of an
  // iteration differ in what they issue; else "k" iterations issue its sequence "k" times. The loop's
  // successors are the blocks outside that its blocks jump to.
  method VisitLoop(l: Loop, comm: Option<nat>, headerName: string) returns (lists: map<nat, CollectiveList>, exits: set<nat>)
    requires ValidLoop(l)
    ensures l.header in lists && lists[l.header].header == Some(headerName)
    ensures IsNavs(lists[l.header]) <==> !Uniform(IterationRuns(l, comm))
    ensures NavsFree(lists[l.header].elems) <==> Uniform(IterationRuns(l, comm))
    ensures NavsFree(lists[l.header].elems) ==>
      forall k: nat :: Repeated(IterationRuns(l, comm), k) == iset{Times(Names(lists[l.header].elems), k)}
    ensures forall x :: x in exits <==> IsExitOf(l, l.blocks, x)
  {
    lists, exits := TraverseBody(l, comm);
    assert l.latch in lists && l.header in lists && CorrectIn(l, comm, lists[l.latch], l.latch);
    hide ValidLoop, AllCorrectIn, Uniform, PathRuns, IsExitOf;
    MeansUniform(lists[l.latch].elems, IterationRuns(l, comm));
    lists := lists[l.header := CollectiveList(Some(headerName), lists[l.latch].elems)];
    MarkedIffDifferent(lists[l.header], IterationRuns(l, comm));
    ghost var es := lists[l.header].elems;
    if NavsFree(es) {
      forall k: nat ensures Repeated(IterationRuns(l, comm), k) == iset{Times(Names(es), k)} {
        RepeatedSingle(Names(es), k);
      }
    }
  }
}
