// solveConstraints: builds the constraint graph and runs the worklists to the fixed point.
module Solve {
  import opened Graphs
  import opened PointsTo
  import opened NodeFactory
  import opened ConstraintGraphs
  import opened Propagation
  import opened Collapse
  import opened CycleDetection
  import DepthFirst
  import opened Solver

  // The representatives of "rep" are merged further in "rep'".
  ghost predicate Coarser(rep: seq<nat>, rep': seq<nat>) {
    && |rep'| == |rep|
    && (forall n {:trigger rep'[n]} :: 0 <= n < |rep| ==> rep[n] < |rep| && rep'[n] == rep'[rep[n]])
  }

  // A solution of the constraints that does not separate the nodes merged from the outset.
  ghost predicate Admissible(a: Assignment, cs: seq<Constraint>, rep0: seq<nat>) {
    IsSolution(a, cs) && Respects(a, rep0)
  }

  ghost predicate BelowAll(s: State, cs: seq<Constraint>, rep0: seq<nat>) {
    forall a :: Admissible(a, cs, rep0) ==> s.Below(a)
  }

  ghost predicate SolverInv(s: State, cs: seq<Constraint>, rep0: seq<nat>, work: set<nat>) {
    && s.WellFormed() && Coarser(rep0, s.rep)
    && InRange(cs, |s.rep|) && s.Covers(cs)
    && BelowAll(s, cs, rep0)
    && s.Settled(work)
  }

  // The answer is the least admissible solution.
  ghost predicate IsLeast(a: Assignment, cs: seq<Constraint>, rep0: seq<nat>) {
    && Admissible(a, cs, rep0)
    && forall b :: Admissible(b, cs, rep0) ==> forall n :: a(n) <= b(n)
  }

  lemma AnswerIsLeast(s: State, cs: seq<Constraint>, rep0: seq<nat>)
    requires SolverInv(s, cs, rep0, {})
    ensures IsLeast(s.Answer(), cs, rep0)
  {
    hide State.Below, State.Settled, State.Covers, IsSolution;
    AnswerIsSolution(s, cs);
    forall b | Admissible(b, cs, rep0) ensures forall n :: s.Answer()(n) <= b(n) {
      AnswerIsBelow(s, b);
    }
  }

  // Two least solutions are the same.
  lemma LeastIsUnique(a: Assignment, b: Assignment, cs: seq<Constraint>, rep0: seq<nat>, n: nat)
    requires IsLeast(a, cs, rep0) && IsLeast(b, cs, rep0)
    ensures a(n) == b(n)
  {
    assert Admissible(a, cs, rep0) && Admissible(b, cs, rep0);
  }

  // After one worklist step, what is not on a worklist is done.
  lemma StepKeepsSettled(s: State, t: State, curr: set<nat>, next: set<nat>, next': set<nat>, w: nat, node: nat)
    requires s.Settled(curr + {w} + next) && t.WellFormed()
    requires Advances(s, t, next, next') && t.rep == s.rep && next <= next'
    requires w < |s.rep| && node == s.rep[w] && t.Done(node)
    ensures t.Settled(curr + next')
  {
    hide State.Done, Advances;
    forall n: nat {:trigger t.Done(n)} | t.IsRep(n) ensures t.Done(n) || t.Pending(n, curr + next') {
      if n != node {
        if n in next' {
          assert n in curr + next' && t.rep[n] == n;
        } else if s.Done(n) {
          AdvancesKeepsDone(s, t, next, next', n);
        } else {
          assert s.Pending(n, curr + {w} + next);
          var x :| x in curr + {w} + next && x < |s.rep| && s.rep[x] == n;
          assert x in curr + next';
        }
      }
    }
  }

  lemma AdvancesFrame(s: State, t: State, w: set<nat>, w': set<nat>)
    requires Advances(s, t, w, w')
    ensures t.WellFormed() && t.rep == s.rep && w <= w' && Sound(s, t)
  {
  }

  // One worklist step keeps the invariant.
  lemma StepKeepsInv(s: State, t: State, cs: seq<Constraint>, rep0: seq<nat>,
                     curr: set<nat>, next: set<nat>, next': set<nat>, w: nat, node: nat)
    requires SolverInv(s, cs, rep0, curr + {w} + next)
    requires Advances(s, t, next, next') && w < |s.rep| && node == s.rep[w] && t.Done(node)
    ensures SolverInv(t, cs, rep0, curr + next')
  {
    hide State.Done, State.Below, State.Covers, State.Settled, Advances, State.WellFormed;
    AdvancesKeepsCovers(s, t, next, next', cs);
    AdvancesFrame(s, t, next, next');
    StepKeepsSettled(s, t, curr, next, next', w, node);
  }

  lemma CoarserStill(rep0: seq<nat>, s: State, t: State)
    requires Coarser(rep0, s.rep) && IsQuotient(s, t)
    ensures Coarser(rep0, t.rep)
  {
    hide GathersAt, State.WellFormed;
    QuotientSize(s, t);
    forall n | 0 <= n < |rep0| ensures rep0[n] < |rep0| && t.rep[n] == t.rep[rep0[n]] {
      var r := s.rep[n];
      assert rep0[n] < |s.rep| && r == s.rep[rep0[n]];
      QuotientRep(s, t, n);
      QuotientRep(s, t, rep0[n]);
    }
  }

  lemma CollapseKeepsInv(s: State, t: State, cs: seq<Constraint>, rep0: seq<nat>, work: set<nat>)
    requires SolverInv(s, cs, rep0, work) && IsQuotient(s, t) && MergesSccs(s, t)
    ensures SolverInv(t, cs, rep0, work)
  {
    hide MergesSccs, State.Settled, State.Below, State.Covers, GathersAt, Coarser;
    CoarserStill(rep0, s, t);
    CoarserSize(rep0, s.rep);
    CoarserSize(rep0, t.rep);
    QuotientKeepsCovers(s, t, cs);
    QuotientKeepsSettled(s, t, work);
    forall a | Admissible(a, cs, rep0) ensures t.Below(a) {
      QuotientStaysBelow(s, t, a);
    }
  }

  lemma CoarserSize(rep: seq<nat>, rep': seq<nat>)
    requires Coarser(rep, rep')
    ensures |rep'| == |rep|
  {
  }

  // The first worklist: every representative that has a points-to set and edges.
  method InitWorkList(a: Andersen, curr: AndersWorkList)
    requires a.Valid() && curr.Valid() && curr.list == []
    modifies a.nodes`target, curr
    ensures a.Valid() && curr.Valid()
    ensures IdsBelow(curr.members, |a.nodes.rep|)
    ensures a.St().Settled(curr.members)
  {
    hide Acyclic, IsRepMap, State.Done;
    var todo := a.pts.Keys;
    while todo != {}
      invariant a.Valid() && curr.Valid() && todo <= a.pts.Keys
      invariant IdsBelow(curr.members, |a.nodes.rep|)
      invariant forall n :: n in a.pts && n !in todo && n in a.cg.graph ==> n in curr.members
    {
      var node :| node in todo;
      var rep := a.nodes.GetMergeTarget(node);
      if rep == node && node in a.cg.graph {
        curr.Enqueue(node);
      }
      todo := todo - {node};
    }
    ghost var s := a.St();
    forall n: nat {:trigger s.Done(n)} | s.IsRep(n) ensures s.Done(n) || s.Pending(n, curr.members) {
      if n !in s.graph || n !in s.pts {
        NothingToDo(s, n);
      }
    }
  }

  // Adds one constraint to the graph.
  method AddConstraint(a: Andersen, c: Constraint, ghost cs: seq<Constraint>, ghost rep0: seq<nat>, ghost done: seq<Constraint>)
    requires a.Valid() && c.dest < |a.nodes.rep| && c.src < |a.nodes.rep| && c in cs
    requires a.nodes.rep == rep0 && InRange(done, |rep0|) && a.St().Covers(done) && BelowAll(a.St(), cs, rep0)
    modifies a`pts, a.nodes`target, a.cg
    ensures a.Valid() && InRange(done + [c], |rep0|) && a.St().Covers(done + [c]) && BelowAll(a.St(), cs, rep0)
  {
    hide Acyclic, IsRepMap, State.Below, State.Covers, BelowAll;
    var srcTgt := a.nodes.GetMergeTarget(c.src);
    var dstTgt := a.nodes.GetMergeTarget(c.dest);
    ghost var s := a.St();
    match c {
      case AddrOf(_, src) =>
        a.pts := a.pts[dstTgt := (if dstTgt in a.pts then a.pts[dstTgt] else {}) + {src}];
      case Load(_, _) =>
        var _ := a.cg.InsertLoadEdge(srcTgt, dstTgt);
      case Store(_, _) =>
        var _ := a.cg.InsertStoreEdge(dstTgt, srcTgt);
      case Copy(_, _) =>
        var _ := a.cg.InsertCopyEdge(srcTgt, dstTgt);
    }
    ConstraintAdded(s, a.St(), c, cs, rep0, done);
  }

  // What adding one constraint does to the state.
  ghost predicate Adds(s: State, t: State, c: Constraint)
    requires c.dest < |s.rep| && c.src < |s.rep|
  {
    var d, x := s.rep[c.dest], s.rep[c.src];
    match c
    case AddrOf(_, o) => t == s.(pts := s.pts[d := s.Pts(d) + {o}])
    case Copy(_, _) => t == s.(graph := s.graph[x := s.EdgesOf(x).(copy := s.EdgesOf(x).copy + {d})])
    case Load(_, _) => t == s.(graph := s.graph[x := s.EdgesOf(x).(load := s.EdgesOf(x).load + {d})])
    case Store(_, _) => t == s.(graph := s.graph[d := s.EdgesOf(d).(store := s.EdgesOf(d).store + {x})])
  }

  lemma ConstraintAdded(s: State, t: State, c: Constraint, cs: seq<Constraint>, rep0: seq<nat>, done: seq<Constraint>)
    requires s.WellFormed() && c.dest < |s.rep| && c.src < |s.rep| && c in cs && Adds(s, t, c)
    requires s.rep == rep0 && InRange(done, |rep0|) && s.Covers(done) && BelowAll(s, cs, rep0)
    ensures t.WellFormed() && t.rep == rep0 && InRange(done + [c], |rep0|) && t.Covers(done + [c]) && BelowAll(t, cs, rep0)
  {
    hide State.Below;
    AddedGrows(s, t, c);
    forall k | k in done + [c] ensures t.CoversOne(k) {
      if k in done {
        assert s.CoversOne(k);
      }
    }
    forall a | Admissible(a, cs, rep0) ensures t.Below(a) {
      assert Satisfies(a, c);
      AddedStaysBelow(s, t, c, a);
    }
  }

  // The one addition, modulo merging.
  ghost function NewIf(b: bool, x: nat): set<nat> {
    if b then {x} else {}
  }

  lemma AddedExactly(s: State, t: State, c: Constraint)
    requires s.WellFormed() && c.dest < |s.rep| && c.src < |s.rep| && Adds(s, t, c)
    ensures t.rep == s.rep
    ensures forall n :: t.Pts(n) == s.Pts(n) + NewIf(c.AddrOf? && n == s.rep[c.dest], c.src)
    ensures forall n :: t.EdgesOf(n).copy == s.EdgesOf(n).copy + NewIf(c.Copy? && n == s.rep[c.src], s.rep[c.dest])
    ensures forall n :: t.EdgesOf(n).load == s.EdgesOf(n).load + NewIf(c.Load? && n == s.rep[c.src], s.rep[c.dest])
    ensures forall n :: t.EdgesOf(n).store == s.EdgesOf(n).store + NewIf(c.Store? && n == s.rep[c.dest], s.rep[c.src])
  {
  }

  lemma RepsOfSum(s: State, ids: set<nat>, b: bool, x: nat)
    requires s.IsRep(x)
    ensures s.Reps(ids + NewIf(b, x)) == s.Reps(ids) + NewIf(b, x)
  {
    assert s.rep[x] == x;
  }

  lemma AddedModuloMerging(s: State, t: State, c: Constraint, n: nat)
    requires s.WellFormed() && c.dest < |s.rep| && c.src < |s.rep| && Adds(s, t, c)
    ensures t.Succ(n) == s.Succ(n) + NewIf(c.Copy? && n == s.rep[c.src], s.rep[c.dest])
    ensures t.LoadTo(n) == s.LoadTo(n) + NewIf(c.Load? && n == s.rep[c.src], s.rep[c.dest])
    ensures t.StoreFrom(n) == s.StoreFrom(n) + NewIf(c.Store? && n == s.rep[c.dest], s.rep[c.src])
  {
    hide NewIf, State.Reps, State.EdgesOf;
    AddedExactly(s, t, c);
    var d, x := s.rep[c.dest], s.rep[c.src];
    assert s.IsRep(d) && s.IsRep(x);
    RepsOfSum(s, s.EdgesOf(n).copy, c.Copy? && n == x, d);
    RepsOfSum(s, s.EdgesOf(n).load, c.Load? && n == x, d);
    RepsOfSum(s, s.EdgesOf(n).store, c.Store? && n == d, x);
    RepsDependOnRep(s, t, t.EdgesOf(n).copy);
    RepsDependOnRep(s, t, t.EdgesOf(n).load);
    RepsDependOnRep(s, t, t.EdgesOf(n).store);
  }

  lemma RepsDependOnRep(s: State, t: State, ids: set<nat>)
    requires t.rep == s.rep
    ensures t.Reps(ids) == s.Reps(ids)
  {
  }

  lemma AddedWellFormed(s: State, t: State, c: Constraint)
    requires s.WellFormed() && c.dest < |s.rep| && c.src < |s.rep| && Adds(s, t, c)
    ensures t.WellFormed()
  {
  }

  lemma AddedGrows(s: State, t: State, c: Constraint)
    requires s.WellFormed() && c.dest < |s.rep| && c.src < |s.rep| && Adds(s, t, c)
    ensures t.WellFormed() && t.rep == s.rep && t.CoversOne(c)
    ensures forall n :: s.Pts(n) <= t.Pts(n)
    ensures forall n :: s.Succ(n) <= t.Succ(n)
    ensures forall n :: s.LoadTo(n) <= t.LoadTo(n)
    ensures forall n :: s.StoreFrom(n) <= t.StoreFrom(n)
  {
    hide State.Succ, State.LoadTo, State.StoreFrom, State.WellFormed, State.Pts, Adds;
    AddedWellFormed(s, t, c);
    AddedExactly(s, t, c);
    forall n ensures s.Succ(n) <= t.Succ(n) && s.LoadTo(n) <= t.LoadTo(n) && s.StoreFrom(n) <= t.StoreFrom(n) {
      AddedModuloMerging(s, t, c, n);
    }
    AddedModuloMerging(s, t, c, s.rep[c.src]);
    AddedModuloMerging(s, t, c, s.rep[c.dest]);
  }

  lemma AddedBelowAt(s: State, t: State, c: Constraint, a: Assignment, n: nat, z: nat)
    requires s.WellFormed() && c.dest < |s.rep| && c.src < |s.rep| && Adds(s, t, c) && s.Below(a) && Satisfies(a, c)
    requires s.IsRep(n)
    ensures t.Pts(n) <= a(n)
    ensures z in t.Succ(n) ==> a(n) <= a(z)
    ensures z in t.LoadTo(n) ==> forall v :: v in a(n) ==> a(v) <= a(z)
    ensures z in t.StoreFrom(n) ==> forall v :: v in a(n) ==> a(z) <= a(v)
  {
    hide State.Succ, State.LoadTo, State.StoreFrom, State.WellFormed, State.Pts, Adds;
    AddedExactly(s, t, c);
    assert a(c.dest) == a(s.rep[c.dest]) && a(c.src) == a(s.rep[c.src]);
    AddedModuloMerging(s, t, c, n);
  }

  lemma AddedStaysBelow(s: State, t: State, c: Constraint, a: Assignment)
    requires s.WellFormed() && c.dest < |s.rep| && c.src < |s.rep| && Adds(s, t, c) && s.Below(a) && Satisfies(a, c)
    ensures t.Below(a)
  {
    hide State.Succ, State.LoadTo, State.StoreFrom, State.WellFormed, State.Pts, Adds;
    assert t.rep == s.rep by { AddedExactly(s, t, c); }
    assert forall n :: t.IsRep(n) == s.IsRep(n);
    forall n | t.IsRep(n) ensures t.Pts(n) <= a(n) {
      AddedBelowAt(s, t, c, a, n, n);
    }
    forall n, d | t.IsRep(n) && d in t.Succ(n) ensures a(n) <= a(d) {
      AddedBelowAt(s, t, c, a, n, d);
    }
    forall n, d, v | t.IsRep(n) && d in t.LoadTo(n) && v in a(n) ensures a(v) <= a(d) {
      AddedBelowAt(s, t, c, a, n, d);
    }
    forall n, x, v | t.IsRep(n) && x in t.StoreFrom(n) && v in a(n) ensures a(x) <= a(v) {
      AddedBelowAt(s, t, c, a, n, x);
    }
  }

  // buildConstraintGraph.
  method BuildConstraintGraph(a: Andersen, cs: seq<Constraint>)
    requires a.nodes.Valid() && a.pts == map[] && a.cg.graph == map[] && InRange(cs, |a.nodes.rep|)
    modifies a`pts, a.nodes`target, a.cg
    ensures a.Valid() && a.St().Covers(cs) && BelowAll(a.St(), cs, a.nodes.rep)
  {
    hide Acyclic, State.Covers, BelowAll, State.WellFormed;
    ghost var rep0 := a.nodes.rep;
    EmptyState(a.St(), a.nodes.target, cs);
    assert cs[..0] == [];
    for i := 0 to |cs|
      invariant a.Valid() && a.nodes.rep == rep0
      invariant InRange(cs[..i], |rep0|) && a.St().Covers(cs[..i]) && BelowAll(a.St(), cs, rep0)
    {
      AddConstraint(a, cs[i], cs, rep0, cs[..i]);
      assert cs[..i + 1] == cs[..i] + [cs[i]];
    }
    assert cs[..|cs|] == cs;
  }

  lemma EmptyState(s: State, target: seq<nat>, cs: seq<Constraint>)
    requires IsRepMap(target, s.rep) && s.pts == map[] && s.graph == map[]
    ensures s.WellFormed() && s.Covers([]) && BelowAll(s, cs, s.rep)
  {
  }

  // The representative of every candidate has been merged with all that lies on a cycle with it.
  ghost predicate CyclesCollapsed(s: State, t: State, candidates: set<nat>) {
    forall c, x: nat :: c in candidates && c < |s.rep| == |t.rep| && s.rep[c] < |s.rep| && s.IsRep(x) && SameScc(CopyGraph(s), s.rep[c], x) ==>
      t.rep[x] == t.rep[s.rep[c]]
  }

  lemma CandidatesCollapsed(s: State, t: State, candidates: set<nat>, done: set<nat>)
    requires MergedUpTo(s, t, done) && s.WellFormed()
    requires forall c :: c in candidates ==> c < |s.rep| && s.rep[c] in done
    ensures CyclesCollapsed(s, t, candidates)
  {
    hide SameScc, CopyGraph, IsQuotient;
    forall c, x: nat | c in candidates && c < |s.rep| == |t.rep| && s.rep[c] < |s.rep| && s.IsRep(x) && SameScc(CopyGraph(s), s.rep[c], x)
      ensures t.rep[x] == t.rep[s.rep[c]]
    {
      assert s.IsRep(s.rep[c]);
    }
  }

  // Detects and collapses cycles through the candidates, then forgets the candidates.
  method CollapseCycles(a: Andersen)
    requires a.Valid() && IdsBelow(a.cycleCandidates, |a.nodes.rep|)
    modifies a`pts, a`cycleCandidates, a.nodes, a.cg
    ensures a.Valid() && a.cycleCandidates == {}
    ensures IsQuotient(old(a.St()), a.St()) && MergesSccs(old(a.St()), a.St())
    ensures CyclesCollapsed(old(a.St()), a.St(), old(a.cycleCandidates))
  {
    hide Acyclic, IsRepMap, State.WellFormed, MergedUpTo, IsQuotient, MergesSccs, CyclesCollapsed, DepthFirst.Search.Inv, DepthFirst.Reported;
    var detector := new OnlineCycleDetector(a);
    detector.Run(a.cycleCandidates);
    MergedUpToMergesSccs(detector.start, a.St(), detector.inComponent);
    CandidatesCollapsed(detector.start, a.St(), a.cycleCandidates, detector.inComponent);
    a.cycleCandidates := {};
  }

  lemma AdvancesPays(s: State, t: State, w: set<nat>)
    requires Advances(s, t, {}, w)
    ensures t.AllReps() == s.AllReps() && t.MissingPts() <= s.MissingPts() && t.MissingCopies() <= s.MissingCopies()
    ensures w == {} || t.MissingPts() < s.MissingPts() || t.MissingCopies() < s.MissingCopies()
    ensures IdsBelow(w, |s.rep|)
  {
  }

  lemma AdvancesInRange(s: State, t: State, w: set<nat>, w': set<nat>)
    requires Advances(s, t, w, w') && IdsBelow(w, |s.rep|)
    ensures IdsBelow(w', |t.rep|)
  {
  }

  // One element of the current worklist.
  method Step(a: Andersen, curr: AndersWorkList, next: AndersWorkList, enableLCD: bool,
              ghost cs: seq<Constraint>, ghost rep0: seq<nat>, ghost s: State)
    requires a.Valid() && curr.Valid() && next.Valid() && curr != next && curr.list != []
    requires IdsBelow(a.cycleCandidates, |a.nodes.rep|)
    requires IdsBelow(curr.members, |a.nodes.rep|) && IdsBelow(next.members, |a.nodes.rep|)
    requires SolverInv(a.St(), cs, rep0, curr.members + next.members)
    requires Advances(s, a.St(), {}, next.members)
    modifies a, a.nodes`target, a.cg, curr, next
    ensures a.Valid() && curr.Valid() && next.Valid() && |curr.list| < |old(curr.list)|
    ensures IdsBelow(a.cycleCandidates, |a.nodes.rep|)
    ensures IdsBelow(curr.members, |a.nodes.rep|) && IdsBelow(next.members, |a.nodes.rep|)
    ensures SolverInv(a.St(), cs, rep0, curr.members + next.members)
    ensures Advances(s, a.St(), {}, next.members)
  {
    hide Acyclic, IsRepMap, Advances, SolverInv, State.WellFormed, State.Done;
    var w := curr.Dequeue();
    assert curr.members + {w} + next.members == old(curr.members + next.members);
    ghost var t, work := a.St(), next.members;
    WorkIsRep(t, w);
    var node := a.nodes.GetMergeTarget(w);
    a.ProcessNode(node, next, enableLCD);
    StepKeepsInv(t, a.St(), cs, rep0, curr.members, work, next.members, w, node);
    AdvancesTransitive(s, t, a.St(), {}, work, next.members);
    AdvancesInRange(t, a.St(), work, next.members);
  }

  lemma WorkIsRep(s: State, w: nat)
    requires s.WellFormed() && w < |s.rep|
    ensures s.IsRep(s.rep[w])
  {
  }

  // The inner loop: empties the current worklist into the next one.
  method Drain(a: Andersen, curr: AndersWorkList, next: AndersWorkList, enableLCD: bool,
               ghost cs: seq<Constraint>, ghost rep0: seq<nat>)
    requires a.Valid() && curr.Valid() && next.Valid() && curr != next && next.list == []
    requires IdsBelow(a.cycleCandidates, |a.nodes.rep|) && IdsBelow(curr.members, |a.nodes.rep|)
    requires SolverInv(a.St(), cs, rep0, curr.members)
    modifies a, a.nodes`target, a.cg, curr, next
    ensures a.Valid() && curr.Valid() && next.Valid() && curr.list == []
    ensures IdsBelow(a.cycleCandidates, |a.nodes.rep|) && IdsBelow(next.members, |a.nodes.rep|)
    ensures SolverInv(a.St(), cs, rep0, next.members)
    ensures Advances(old(a.St()), a.St(), {}, next.members)
  {
    hide Acyclic, IsRepMap, Advances, SolverInv, State.WellFormed;
    ghost var s := a.St();
    EmptyWork(next);
    AdvancesReflexive(s, {});
    assert curr.members + next.members == curr.members;
    while curr.list != []
      invariant a.Valid() && curr.Valid() && next.Valid()
      invariant IdsBelow(a.cycleCandidates, |a.nodes.rep|)
      invariant IdsBelow(curr.members, |a.nodes.rep|) && IdsBelow(next.members, |a.nodes.rep|)
      invariant SolverInv(a.St(), cs, rep0, curr.members + next.members)
      invariant Advances(s, a.St(), {}, next.members)
      decreases |curr.list|
    {
      Step(a, curr, next, enableLCD, cs, rep0, s);
    }
    EmptyWork(curr);
    assert curr.members + next.members == next.members;
  }

  lemma EmptyWork(w: AndersWorkList)
    requires w.Valid()
    ensures w.list == [] <==> w.members == {}
  {
    if w.list != [] {
      assert w.list[0] in w.members;
    }
  }

  // One round: collapse the cycles suspected in the last round, then drain the worklist.
  method Round(a: Andersen, curr: AndersWorkList, next: AndersWorkList, enableLCD: bool,
               ghost cs: seq<Constraint>, ghost rep0: seq<nat>)
    requires a.Valid() && curr.Valid() && next.Valid() && curr != next && next.list == []
    requires IdsBelow(a.cycleCandidates, |a.nodes.rep|) && IdsBelow(curr.members, |a.nodes.rep|)
    requires SolverInv(a.St(), cs, rep0, curr.members)
    modifies a, a.nodes, a.cg, curr, next
    ensures a.Valid() && curr.Valid() && next.Valid() && curr.list == []
    ensures IdsBelow(a.cycleCandidates, |a.nodes.rep|) && IdsBelow(next.members, |a.nodes.rep|)
    ensures SolverInv(a.St(), cs, rep0, next.members)
    ensures Progress(old(a.St()), a.St(), next.members)
  {
    hide Acyclic, IsRepMap, Advances, SolverInv, State.WellFormed, IsQuotient, MergesSccs, Progress;
    ghost var s := a.St();
    if enableLCD && a.cycleCandidates != {} {
      CollapseCycles(a);
      CollapseKeepsInv(s, a.St(), cs, rep0, curr.members);
      QuotientSize(s, a.St());
    } else {
      QuotientReflexive(s);
    }
    ghost var t := a.St();
    Drain(a, curr, next, enableLCD, cs, rep0);
    RoundProgress(s, t, a.St(), next.members);
  }

  // The termination measure: representatives, then missing points-to pairs, then missing copy
  // edges; a round that decreases none of them leaves no work.
  ghost predicate Progress(s: State, t: State, work: set<nat>) {
    || t.AllReps() < s.AllReps()
    || (t.AllReps() == s.AllReps() && t.MissingPts() < s.MissingPts())
    || (t.AllReps() == s.AllReps() && t.MissingPts() == s.MissingPts() && t.MissingCopies() < s.MissingCopies())
    || (t.AllReps() == s.AllReps() && t.MissingPts() == s.MissingPts() && t.MissingCopies() == s.MissingCopies() && work == {})
  }

  lemma RoundProgress(s: State, t: State, u: State, work: set<nat>)
    requires IsQuotient(s, t) && Advances(t, u, {}, work)
    ensures Progress(s, u, work)
  {
    hide IsQuotient, Advances, State.AllReps, State.MissingPts, State.MissingCopies;
    QuotientMeasure(s, t);
    AdvancesPays(t, u, work);
  }

  // solveConstraints, with hybrid cycle detection off and lazy cycle detection on or off: it ends,
  // and the points-to sets it leaves are the least solution of the constraints (among those
  // that agree on the nodes merged before it started).
  method SolveConstraints(a: Andersen, cs: seq<Constraint>, enableLCD: bool)
    requires a.nodes.Valid() && a.pts == map[] && a.cg.graph == map[] && a.cycleCandidates == {}
    requires InRange(cs, |a.nodes.rep|)
    modifies a, a.nodes, a.cg
    ensures a.Valid()
    ensures IsLeast(a.St().Answer(), cs, old(a.nodes.rep))
  {
    hide Acyclic, IsRepMap, SolverInv, State.WellFormed, IsLeast, BelowAll, State.Settled, State.Covers;
    ghost var rep0 := a.nodes.rep;
    BuildConstraintGraph(a, cs);
    var curr := new AndersWorkList();
    var next := new AndersWorkList();
    InitWorkList(a, curr);
    InitialInv(a.St(), cs, rep0, curr.members);
    while curr.list != []
      invariant a.Valid() && curr.Valid() && next.Valid() && curr != next && next.list == []
      invariant fresh(curr) && fresh(next)
      invariant IdsBelow(a.cycleCandidates, |a.nodes.rep|) && IdsBelow(curr.members, |a.nodes.rep|)
      invariant SolverInv(a.St(), cs, rep0, curr.members)
      decreases a.St().AllReps(), a.St().MissingPts(), a.St().MissingCopies(), |curr.list|
    {
      Round(a, curr, next, enableLCD, cs, rep0);
      EmptyWork(next);
      curr, next := next, curr;
    }
    EmptyWork(curr);
    AnswerIsLeast(a.St(), cs, rep0);
  }

  lemma InitialInv(s: State, cs: seq<Constraint>, rep0: seq<nat>, work: set<nat>)
    requires s.WellFormed() && s.rep == rep0 && InRange(cs, |rep0|) && s.Covers(cs) && BelowAll(s, cs, rep0) && s.Settled(work)
    ensures SolverInv(s, cs, rep0, work)
  {
  }
}
