// The whole chain on the program with the hidden branch: the first block's list does not show the
// difference, and the warnings do.
module ReportedExample {
  import opened Sequences
  import opened CollectiveLists
  import opened CollectiveRuns
  import opened CollectiveMeaning
  import opened CollectiveAnalysis
  import opened CallConditions
  import opened Divergence
  import opened Warnings
  import opened Dominance
  import P = PostDominance

  // Block b has the number b + 1; blocks 2 and 3 return.
  function ExampleCfg(): Cfg {
    Cfg([[3, 4], [], [1], [2], [2]], [[], [2], [3, 4], [0], [0]])
  }

  function ExampleTree(): P.Tree {
    P.Tree(map[1 := 2, 2 := 0, 3 := 0, 4 := 0], map[0 := [2, 3, 4], 1 := [], 2 := [1], 3 := [], 4 := []])
  }

  function ExampleView(): View {
    View(ExampleCfg(), ExampleTree(), [0, 0, 1, 2, 3], map[0 := 1, 1 := 2, 2 := 3, 3 := 4])
  }

  lemma ExampleIsCfg()
    ensures ExampleCfg().Valid() && ExampleCfg().PathTo(0, [0])
  {
    var c := ExampleCfg();
    forall x, y | 0 <= x < |c.succ| && y in c.succ[x] ensures 0 <= y < |c.succ| && x in c.pred[y] {
      assert c.succ[x] == [[3, 4], [], [1], [2], [2]][x];
    }
    forall x, y | 0 <= y < |c.succ| && x in c.pred[y] ensures 0 <= x < |c.succ| && y in c.succ[x] {
      assert c.pred[y] == [[], [2], [3, 4], [0], [0]][y];
    }
  }

  lemma OneStep(a: nat, p: seq<nat>, b: nat)
    requires ExampleCfg().Valid() && a < |ExampleCfg().succ| && ExampleCfg().PathTo(a, p) && b in ExampleCfg().succ[a]
    ensures ExampleCfg().PathTo(b, p + [b])
  {
    ExtendPath(ExampleCfg(), p, b);
  }

  lemma ExamplePaths()
    ensures var c := ExampleCfg();
      && c.Valid() && c.PathTo(0, [0]) && c.PathTo(3, [0, 3]) && c.PathTo(4, [0, 4])
      && c.PathTo(2, [0, 3, 2]) && c.PathTo(2, [0, 4, 2]) && c.PathTo(1, [0, 3, 2, 1]) && c.PathTo(1, [0, 4, 2, 1])
  {
    ExampleIsCfg();
    ExampleEdges();
    hide ExampleCfg, Cfg.Valid, Cfg.PathTo;
    OneStep(0, [0], 3);
    OneStep(0, [0], 4);
    OneStep(3, [0, 3], 2);
    OneStep(4, [0, 4], 2);
    OneStep(2, [0, 3, 2], 1);
    OneStep(2, [0, 4, 2], 1);
    assert [0] + [3] == [0, 3] && [0] + [4] == [0, 4] && [0, 3] + [2] == [0, 3, 2] && [0, 4] + [2] == [0, 4, 2];
    assert [0, 3, 2] + [1] == [0, 3, 2, 1] && [0, 4, 2] + [1] == [0, 4, 2, 1];
  }

  lemma ExampleEdges()
    ensures var c := ExampleCfg();
      |c.succ| == 5 && 3 in c.succ[0] && 4 in c.succ[0] && 2 in c.succ[3] && 2 in c.succ[4] && 1 in c.succ[2]
  {
  }

  // Block 2 is the only one that jumps to block 1's place on any path.
  lemma OnlyThroughTwo()
    ensures ExampleCfg().Dom(2, 1)
  {
    var c := ExampleCfg();
    forall p | c.PathTo(1, p) ensures 2 in p {
      var n := |p| - 1;
      assert n > 0;
      assert p[n] in c.succ[p[n - 1]];
      assert p[n - 1] == 2;
    }
  }

  lemma EntryDominates(c: Cfg, b: nat)
    ensures c.Dom(0, b)
  {
    forall p | c.PathTo(b, p) ensures 0 in p {
      assert p[0] == 0;
    }
  }

  // With two paths that share only their ends the entry is the immediate dominator.
  lemma IdomIsEntry(b: nat, p: seq<nat>, q: seq<nat>)
    requires 0 < b < 5 && ExampleCfg().PathTo(b, p) && ExampleCfg().PathTo(b, q)
    requires forall z :: z in p && z in q ==> z == 0 || z == b
    ensures ExampleCfg().IsIdom(0, b)
  {
    var c := ExampleCfg();
    EntryDominates(c, b);
    forall z | c.StrictlyDom(z, b) ensures c.Dom(z, 0) {
      assert z in p && z in q;
      DomReflexive(c, 0);
    }
  }

  lemma IdomOfOne()
    ensures ExampleCfg().IsIdom(2, 1)
  {
    var c := ExampleCfg();
    ExamplePaths();
    OnlyThroughTwo();
    ExampleEdges();
    hide ExampleCfg, Cfg.PathTo, Cfg.Valid;
    EntryDominates(c, 2);
    DomReflexive(c, 2);
    forall z | c.StrictlyDom(z, 1) ensures c.Dom(z, 2) {
      assert z in [0, 3, 2, 1] && z in [0, 4, 2, 1];
      assert z == 0 || z == 2;
    }
  }

  lemma ExampleReachable()
    ensures ExampleCfg().Valid() && ExampleCfg().AllReachable() && |ExampleCfg().succ| == 5
  {
    ExamplePaths();
    var c := ExampleCfg();
    assert |c.succ| == 5;
    hide ExampleCfg, Cfg.PathTo, Cfg.Valid;
    forall b | 0 <= b < |c.succ| ensures c.Reachable(b) {
      assert b == 0 || b == 1 || b == 2 || b == 3 || b == 4;
    }
  }

  // The immediate dominators are these.
  lemma ExampleIdoms(b: nat)
    requires 0 < b < 5
    ensures b in ExampleTree().idom && ExampleCfg().IsIdom(ExampleTree().idom[b], b)
  {
    ExamplePaths();
    hide Cfg.IsIdom, Cfg.PathTo, Cfg.Valid;
    match b
    case 1 => IdomOfOne();
    case 2 => IdomIsEntry(2, [0, 3, 2], [0, 4, 2]);
    case 3 => IdomIsEntry(3, [0, 3], [0, 3]);
    case 4 => IdomIsEntry(4, [0, 4], [0, 4]);
  }

  lemma ExampleChildren()
    ensures var t := ExampleTree();
      && (forall b: nat :: b in t.idom <==> 0 < b < 5) && (forall b: nat :: b in t.children <==> b < 5)
      && (forall b, z :: b in t.children && z in t.children[b] ==> z in t.idom && t.idom[z] == b)
      && (forall z :: z in t.idom ==> t.idom[z] in t.children && z in t.children[t.idom[z]])
  {
    var t := ExampleTree();
    assert [2, 3, 4][0] == 2 && [2, 3, 4][1] == 3 && [2, 3, 4][2] == 4 && [1][0] == 1;
    forall b | 0 < b < 5 ensures b in t.idom {
      assert b == 1 || b == 2 || b == 3 || b == 4;
    }
    forall b: nat | b < 5 ensures b in t.children {
      assert b == 0 || b == 1 || b == 2 || b == 3 || b == 4;
    }
  }

  lemma ExampleIsTree()
    ensures P.IsTree(ExampleCfg(), ExampleTree())
  {
    ExampleReachable();
    ExampleChildren();
    hide ExampleCfg, ExampleTree, Cfg.Valid, Cfg.AllReachable, Cfg.IsIdom;
    forall b | b in ExampleTree().idom ensures ExampleCfg().IsIdom(ExampleTree().idom[b], b) {
      ExampleIdoms(b);
    }
  }

  lemma ViewIsValid()
    ensures ExampleView().Valid()
  {
    ExampleIsTree();
    ExampleReachable();
    hide P.IsTree, ExampleTree, ExampleCfg, Cfg.Valid;
    var v := ExampleView();
    forall k | 0 < k < |v.names| ensures v.names[k] in v.numbers && v.numbers[v.names[k]] == k {
      assert k == 1 || k == 2 || k == 3 || k == 4;
    }
  }

  lemma ExampleIsShown()
    ensures |BarrierThenBranch().funcs| == 1 && Shows(BarrierThenBranch(), 0, ExampleView())
  {
    ViewIsValid();
    ExampleNumbers();
    hide View.Valid, BarrierThenBranch, ExampleView;
    var p, v := BarrierThenBranch(), ExampleView();
    forall k, j | 0 < k < |v.names| && 0 < j < |v.names| && k < |v.cfg.pred|
      ensures j in v.cfg.pred[k] <==> v.names[j] in p.succ[v.names[k]]
    {
      ExampleEdge(k, j);
    }
    forall k | 0 < k < |v.names| && k < |v.cfg.pred| ensures 0 in v.cfg.pred[k] <==> p.succ[v.names[k]] == [] {
      ExampleExit(k);
    }
  }

  lemma ExampleNumbers()
    ensures var p, v := BarrierThenBranch(), ExampleView();
      && |p.funcs| == 1 && |v.names| == 5 && |v.cfg.pred| == 5 && v.numbers.Keys == Members(p.funcs[0]) && v.numbers.Keys <= p.succ.Keys
      && (forall k :: 0 < k < 5 ==> v.names[k] in p.succ)
  {
    BarrierTargets();
    hide BarrierThenBranch;
    assert Members([0, 1, 2, 3]) == {0, 1, 2, 3};
  }

  lemma ExampleExit(k: nat)
    requires 0 < k < 5
    ensures var p, v := BarrierThenBranch(), ExampleView();
      |v.names| == 5 && |v.cfg.pred| == 5 && v.names[k] in p.succ && (0 in v.cfg.pred[k] <==> p.succ[v.names[k]] == [])
  {
    BarrierTargets();
    hide BarrierThenBranch;
    assert k == 1 || k == 2 || k == 3 || k == 4;
  }

  lemma ExampleEdge(k: nat, j: nat)
    requires 0 < k < 5 && 0 < j < 5
    ensures var p, v := BarrierThenBranch(), ExampleView();
      |v.names| == 5 && |v.cfg.pred| == 5 && v.names[k] in p.succ && (j in v.cfg.pred[k] <==> v.names[j] in p.succ[v.names[k]])
  {
    BarrierTargets();
    hide BarrierThenBranch;
    assert k == 1 || k == 2 || k == 3 || k == 4;
    assert j == 1 || j == 2 || j == 3 || j == 4;
  }

  lemma NoCalls(s: Site, g: nat)
    ensures !CallsFunction(BarrierThenBranch(), s, g)
  {
    var p := BarrierThenBranch();
    if s.block in p.code && s.index < |p.code[s.block]| {
      assert p.code[s.block] == [BARRIER] || p.code[s.block] == [] || p.code[s.block] == [BCAST];
    }
  }

  lemma ExampleIsSetup()
    ensures IsSetup(BarrierThenBranch(), [ExampleView()], map[])
  {
    BarrierIsValid();
    ExampleIsShown();
    hide Valid, Shows, BarrierThenBranch, ExampleView, CallsFunction;
    forall g, s ensures s in CallersOf(map[], g) <==> CallsFunction(BarrierThenBranch(), s, g) {
      NoCalls(s, g);
    }
  }

  lemma ExampleIsComplete(job: Input)
    requires job.p == BarrierThenBranch() && job.views == [ExampleView()] && job.callers == map[]
    requires job.lists.Keys == {Some(0)} && Ranked(job.p) && AllCorrect(job.p, Some(0), job.lists[Some(0)])
    requires job.lists[Some(0)].Keys == job.p.succ.Keys
    ensures job.Valid() && ListsComplete(job)
  {
    ExampleIsSetup();
    hide IsSetup, Correct, BarrierThenBranch, ExampleView, Ranked;
  }

  // The lists of the program, computed.
  method ExampleLists() returns (lists: map<nat, CollectiveList>)
    ensures Ranked(BarrierThenBranch()) && AllCorrect(BarrierThenBranch(), Some(0), lists)
    ensures lists.Keys == BarrierThenBranch().succ.Keys && 0 in lists
    ensures lists[0].elems == [Coll("MPI_Barrier"), Navs] && !IsNavs(lists[0])
  {
    hide Ranked, Valid, CalleesFirst, ListOf, Runs, FrontOf, AllCorrect;
    BarrierIsValid();
    BarrierHidesBranch(Some(0));
    BarrierTargets();
    hide BarrierThenBranch;
    var visitor := new CollListVisitor(BarrierThenBranch(), Some(0));
    visitor.Run();
    lists := visitor.lists;
  }

  // The warnings of the program, computed.
  method ExampleWarnings(lists: map<nat, CollectiveList>) returns (ghost job: Input, warnings: map<Site, set<nat>>)
    requires Ranked(BarrierThenBranch()) && AllCorrect(BarrierThenBranch(), Some(0), lists)
    requires lists.Keys == BarrierThenBranch().succ.Keys
    ensures job.p == BarrierThenBranch() && job.Valid() && ListsComplete(job) && job.lists.Keys == {Some(0)}
    ensures job.tainted == {0, 1, 2, 3}
    ensures forall s :: s in warnings <==> exists x :: job.IsCondition(s, x)
  {
    hide Ranked, AllCorrect, BarrierThenBranch, View.Valid, ListsComplete, Input.Valid, P.IsTree, P.Frontiers.Valid;
    var v := ExampleView();
    var input := Input(BarrierThenBranch(), [v], map[], map[Some(0) := lists], {0, 1, 2, 3});
    job := input;
    ExampleIsComplete(job);
    ExampleIsTree();
    ViewIsValid();
    var pdt := new P.Frontiers(v.cfg, v.tree);
    assert Prepared([v], [pdt]);
    hide Prepared, Input.IsCondition;
    var checker := new Checker(input, [pdt]);
    checker.Run();
    warnings := checker.warnings;
  }

  // The first block has no mark although sequences from it differ, and some call is reported.
  method ReportedDifference() returns (list: CollectiveList, warnings: map<Site, set<nat>>)
    ensures list.elems == [Coll("MPI_Barrier"), Navs] && !IsNavs(list)
    ensures Ranked(BarrierThenBranch()) && Differ(Runs(BarrierThenBranch(), Some(0), 0))
    ensures exists s :: s in warnings
  {
    hide Ranked, ListOf, Runs, ListsComplete, AllCorrect, Differ, Input.Valid, Input.IsCondition;
    BarrierHidesBranch(Some(0));
    BarrierTargets();
    hide BarrierThenBranch;
    var lists := ExampleLists();
    list := lists[0];
    ghost var job;
    job, warnings := ExampleWarnings(lists);
    InputIsRanked(job);
    assert job.p.succ.Keys <= job.tainted;
    WarnedIffDifferent(job);
    ghost var s, x :| job.IsCondition(s, x);
    assert s in warnings;
  }
}
