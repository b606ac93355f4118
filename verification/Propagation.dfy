// What one worklist step of the solver may do to the state.
module Propagation {
  import opened PointsTo

  // Nothing is merged; sets and edges only grow.
  ghost predicate Grows(s: State, t: State) {
    && t.WellFormed()
    && t.rep == s.rep
    && (forall n :: s.Pts(n) <= t.Pts(n))
    && (forall n :: s.Succ(n) <= t.Succ(n))
    && (forall n :: t.LoadTo(n) == s.LoadTo(n))
    && (forall n :: t.StoreFrom(n) == s.StoreFrom(n))
  }

  // Every node whose points-to set or copy edges changed is on the worklist.
  ghost predicate Tracked(s: State, t: State, work: set<nat>) {
    && (forall n :: s.Pts(n) != t.Pts(n) ==> n in work)
    && (forall n :: s.Succ(n) != t.Succ(n) ==> n in work)
  }

  // The worklist grew only together with the state.
  ghost predicate Paid(s: State, t: State, work: set<nat>, work': set<nat>) {
    && work <= work'
    && (forall n :: n in work' && n !in work ==> n < |s.rep|)
    && t.MissingPts() <= s.MissingPts()
    && t.MissingCopies() <= s.MissingCopies()
    && (work' != work ==> t.MissingPts() < s.MissingPts() || t.MissingCopies() < s.MissingCopies())
  }

  // The state stays below every assignment it was below.
  ghost predicate Sound(s: State, t: State) {
    forall a :: s.Below(a) ==> t.Below(a)
  }

  ghost predicate Advances(s: State, t: State, work: set<nat>, work': set<nat>) {
    Grows(s, t) && Tracked(s, t, work') && Paid(s, t, work, work') && Sound(s, t)
  }

  lemma AdvancesTransitive(s: State, t: State, u: State, w: set<nat>, w': set<nat>, w'': set<nat>)
    requires Advances(s, t, w, w') && Advances(t, u, w', w'')
    ensures Advances(s, u, w, w'')
  {
  }

  lemma AdvancesReflexive(s: State, w: set<nat>)
    requires s.WellFormed()
    ensures Advances(s, s, w, w)
  {
  }

  // What the relation says at one node.
  lemma AdvancesAt(s: State, t: State, w: set<nat>, w': set<nat>, n: nat)
    requires Advances(s, t, w, w')
    ensures t.rep == s.rep
    ensures s.Pts(n) <= t.Pts(n) && s.Succ(n) <= t.Succ(n)
    ensures t.LoadTo(n) == s.LoadTo(n) && t.StoreFrom(n) == s.StoreFrom(n)
  {
  }

  // Constraints stay covered, and a node that is not pending stays done.
  lemma AdvancesKeepsCovers(s: State, t: State, w: set<nat>, w': set<nat>, cs: seq<Constraint>)
    requires Advances(s, t, w, w') && InRange(cs, |s.rep|) && s.Covers(cs)
    ensures t.Covers(cs)
  {
    forall c | c in cs ensures t.CoversOne(c) {
      assert s.CoversOne(c);
    }
  }

  lemma AdvancesKeepsDone(s: State, t: State, w: set<nat>, w': set<nat>, n: nat)
    requires Advances(s, t, w, w') && s.Done(n) && n !in w'
    ensures t.Done(n)
  {
    assert t.Pts(n) == s.Pts(n) && t.Succ(n) == s.Succ(n);
    forall d | d in t.Succ(n) ensures t.Pts(n) <= t.Pts(d) {
      assert s.Pts(n) <= s.Pts(d);
    }
  }

  // A state that differs in points-to sets and copy edges only stays below an assignment that
  // bounds its sets and respects its new edges.
  lemma GrownStateStaysBelow(s: State, t: State, a: Assignment)
    requires s.Below(a) && t.rep == s.rep
    requires forall n :: s.IsRep(n) ==> t.Pts(n) <= a(n)
    requires forall n, d :: s.IsRep(n) && d in t.Succ(n) ==> d in s.Succ(n) || a(n) <= a(d)
    requires forall n :: t.LoadTo(n) == s.LoadTo(n)
    requires forall n :: t.StoreFrom(n) == s.StoreFrom(n)
    ensures t.Below(a)
  {
    hide State.Succ, State.LoadTo, State.StoreFrom, State.Pts;
    assert forall n :: t.IsRep(n) == s.IsRep(n);
  }

  lemma BelowIsAbstract(s: State, t: State, a: Assignment)
    requires s.Below(a) && t.rep == s.rep
    requires forall n :: t.Pts(n) == s.Pts(n)
    requires forall n :: t.Succ(n) == s.Succ(n)
    requires forall n :: t.LoadTo(n) == s.LoadTo(n)
    requires forall n :: t.StoreFrom(n) == s.StoreFrom(n)
    ensures t.Below(a)
  {
    hide State.Succ, State.LoadTo, State.StoreFrom, State.Pts;
    GrownStateStaysBelow(s, t, a);
  }

  // Inserting a copy edge that every assignment above the state respects.
  ghost predicate InsertsCopy(s: State, t: State, src: nat, dst: nat) {
    && s.WellFormed() && s.IsRep(src) && s.IsRep(dst)
    && t == s.(graph := s.graph[src := s.EdgesOf(src).(copy := s.EdgesOf(src).copy + {dst})])
  }

  lemma InsertCopyGrows(s: State, t: State, src: nat, dst: nat)
    requires InsertsCopy(s, t, src, dst)
    ensures Grows(s, t)
    ensures t.Succ(src) == s.Succ(src) + {dst}
    ensures forall n :: n != src ==> t.Succ(n) == s.Succ(n)
    ensures dst in s.EdgesOf(src).copy ==> t.Succ(src) == s.Succ(src)
    ensures forall n :: t.Pts(n) == s.Pts(n)
  {
    assert t.EdgesOf(src).copy == s.EdgesOf(src).copy + {dst};
    assert s.rep[dst] == dst;
    assert forall n :: t.EdgesOf(n).load == s.EdgesOf(n).load && t.EdgesOf(n).store == s.EdgesOf(n).store;
  }

  lemma InsertCopyPaid(s: State, t: State, src: nat, dst: nat, w: set<nat>)
    requires InsertsCopy(s, t, src, dst)
    ensures Paid(s, t, w, if dst in s.EdgesOf(src).copy then w else w + {src})
  {
    assert t.MissingPts() == s.MissingPts() by {
      assert forall n :: t.Pts(n) == s.Pts(n);
    }
    if dst !in s.EdgesOf(src).copy {
      assert (src, dst) in s.MissingCopies() && (src, dst) !in t.MissingCopies();
    }
  }

  lemma InsertCopyStaysBelow(s: State, t: State, src: nat, dst: nat, a: Assignment)
    requires InsertsCopy(s, t, src, dst) && s.Below(a) && a(src) <= a(dst)
    ensures t.Below(a)
  {
    hide State.Succ, State.LoadTo, State.StoreFrom, State.WellFormed, State.Pts;
    InsertCopyGrows(s, t, src, dst);
    assert forall n :: t.LoadTo(n) == s.LoadTo(n) && t.StoreFrom(n) == s.StoreFrom(n);
    GrownStateStaysBelow(s, t, a);
  }

  lemma InsertCopyAdvances(s: State, t: State, src: nat, dst: nat, w: set<nat>)
    requires InsertsCopy(s, t, src, dst)
    requires forall a :: s.Below(a) ==> a(src) <= a(dst)
    ensures Advances(s, t, w, if dst in s.EdgesOf(src).copy then w else w + {src})
    ensures t.WellFormed() && dst in t.Succ(src)
  {
    hide State.Below, State.Succ, State.LoadTo, State.StoreFrom, State.WellFormed, State.Pts, Paid;
    InsertCopyGrows(s, t, src, dst);
    InsertCopyPaid(s, t, src, dst, w);
    forall a | s.Below(a) ensures t.Below(a) {
      InsertCopyStaysBelow(s, t, src, dst, a);
    }
  }

  // The edge ids among "ids" that have been merged away, with what they were merged into.
  ghost function StaleIds(rep: seq<nat>, ids: set<nat>): map<nat, nat> {
    map x | x in ids && x < |rep| && rep[x] != x :: rep[x]
  }

  // Edge ids with every stale one of "sub" replaced by its representative.
  ghost function Fresh(rep: seq<nat>, ids: set<nat>, sub: set<nat>): set<nat> {
    ids - StaleIds(rep, sub).Keys + StaleIds(rep, sub).Values
  }

  lemma StaleIdsStep(rep: seq<nat>, ids: set<nat>, x: nat)
    requires x < |rep|
    ensures StaleIds(rep, ids + {x}) == if rep[x] != x then StaleIds(rep, ids)[x := rep[x]] else StaleIds(rep, ids)
  {
  }

  // Stale ids can be replaced in any order, and nothing changes modulo merging.
  lemma FreshKeepsReps(s: State, ids: set<nat>, sub: set<nat>)
    requires s.WellFormed() && IdsBelow(ids, |s.rep|) && sub <= ids
    ensures StaleIds(s.rep, sub).Keys <= ids && StaleIds(s.rep, sub).Keys !! StaleIds(s.rep, sub).Values
    ensures IdsBelow(Fresh(s.rep, ids, sub), |s.rep|)
    ensures s.Reps(Fresh(s.rep, ids, sub)) == s.Reps(ids)
    ensures forall d :: s.IsRep(d) && d in ids ==> d in Fresh(s.rep, ids, sub)
  {
    var stale, now := StaleIds(s.rep, sub), Fresh(s.rep, ids, sub);
    forall x | x in stale.Values ensures s.IsRep(x) && x in s.Reps(ids) {
      var k :| k in stale && stale[k] == x;
      assert s.IsRep(s.rep[k]);
    }
    forall x | x in s.Reps(ids) ensures x in s.Reps(now) {
      var e :| e in ids && e < |s.rep| && s.rep[e] == x;
      if e in stale {
        assert stale[e] in stale.Values && s.rep[x] == x;
      }
    }
    forall x | x in s.Reps(now) ensures x in s.Reps(ids) {
      var e :| e in now && e < |s.rep| && s.rep[e] == x;
    }
  }

  // Rewriting the edges of one node.
  ghost predicate Rewrites(s: State, t: State, n: nat, sub: set<nat>) {
    && s.WellFormed() && n in s.graph
    && t.rep == s.rep && t.pts == s.pts && t.graph.Keys == s.graph.Keys
    && (forall m :: m in s.graph && m != n ==> t.graph[m] == s.graph[m])
    && (t.graph[n].copy == s.graph[n].copy || (sub <= s.graph[n].copy && t.graph[n].copy == Fresh(s.rep, s.graph[n].copy, sub)))
    && (t.graph[n].load == s.graph[n].load || (sub <= s.graph[n].load && t.graph[n].load == Fresh(s.rep, s.graph[n].load, sub)))
    && (t.graph[n].store == s.graph[n].store || (sub <= s.graph[n].store && t.graph[n].store == Fresh(s.rep, s.graph[n].store, sub)))
  }

  lemma RewriteKeepsEdges(s: State, t: State, n: nat, sub: set<nat>)
    requires Rewrites(s, t, n, sub)
    ensures t.WellFormed()
    ensures forall m :: t.Succ(m) == s.Succ(m)
    ensures forall m :: t.LoadTo(m) == s.LoadTo(m)
    ensures forall m :: t.StoreFrom(m) == s.StoreFrom(m)
    ensures t.MissingCopies() <= s.MissingCopies()
  {
    hide StaleIds, Fresh;
    if t.graph[n].copy != s.graph[n].copy {
      FreshKeepsReps(s, s.graph[n].copy, sub);
    }
    if t.graph[n].load != s.graph[n].load {
      FreshKeepsReps(s, s.graph[n].load, sub);
    }
    if t.graph[n].store != s.graph[n].store {
      FreshKeepsReps(s, s.graph[n].store, sub);
    }
    assert forall m :: m != n ==> t.EdgesOf(m) == s.EdgesOf(m);
  }

  lemma RewriteAdvances(s: State, t: State, n: nat, sub: set<nat>, w: set<nat>)
    requires Rewrites(s, t, n, sub)
    ensures Advances(s, t, w, w)
  {
    hide StaleIds, Fresh, State.Succ, State.LoadTo, State.StoreFrom, State.WellFormed, State.MissingCopies, State.Below;
    RewriteKeepsEdges(s, t, n, sub);
    assert forall m :: t.Pts(m) == s.Pts(m);
    assert t.MissingPts() == s.MissingPts();
    forall a | s.Below(a) ensures t.Below(a) {
      BelowIsAbstract(s, t, a);
    }
  }

  // Propagating a points-to set along a copy edge.
  ghost predicate PropagatesPts(s: State, t: State, src: nat, dst: nat) {
    && s.WellFormed() && s.IsRep(src) && dst in s.Succ(src)
    && t == s.(pts := s.pts[dst := s.Pts(dst) + s.Pts(src)])
  }

  lemma PropagateGrows(s: State, t: State, src: nat, dst: nat)
    requires PropagatesPts(s, t, src, dst)
    ensures Grows(s, t)
    ensures forall n :: t.Succ(n) == s.Succ(n)
    ensures forall n :: n != dst ==> t.Pts(n) == s.Pts(n)
    ensures t.Pts(dst) == s.Pts(dst) + s.Pts(src)
  {
    assert forall n :: t.EdgesOf(n) == s.EdgesOf(n);
  }

  lemma PropagatePaid(s: State, t: State, src: nat, dst: nat, w: set<nat>)
    requires PropagatesPts(s, t, src, dst)
    ensures Paid(s, t, w, if s.Pts(src) <= s.Pts(dst) then w else w + {dst})
  {
    assert t.MissingCopies() == s.MissingCopies();
    if !(s.Pts(src) <= s.Pts(dst)) {
      var o :| o in s.Pts(src) && o !in s.Pts(dst);
      assert (dst, o) in s.MissingPts() && (dst, o) !in t.MissingPts();
    }
  }

  lemma PropagateStaysBelow(s: State, t: State, src: nat, dst: nat, a: Assignment)
    requires PropagatesPts(s, t, src, dst) && s.Below(a)
    ensures t.Below(a)
  {
    hide State.Succ, State.LoadTo, State.StoreFrom, State.WellFormed;
    PropagateGrows(s, t, src, dst);
    assert a(src) <= a(dst);
    assert forall n :: t.LoadTo(n) == s.LoadTo(n) && t.StoreFrom(n) == s.StoreFrom(n);
    GrownStateStaysBelow(s, t, a);
  }

  lemma PropagateAdvances(s: State, t: State, src: nat, dst: nat, w: set<nat>)
    requires PropagatesPts(s, t, src, dst)
    ensures Advances(s, t, w, if s.Pts(src) <= s.Pts(dst) then w else w + {dst})
    ensures t.WellFormed()
  {
    hide State.Succ, State.LoadTo, State.StoreFrom, State.WellFormed, State.Below, State.Pts, Paid;
    PropagateGrows(s, t, src, dst);
    PropagatePaid(s, t, src, dst, w);
    forall a | s.Below(a) ensures t.Below(a) {
      PropagateStaysBelow(s, t, src, dst, a);
    }
    assert s.Pts(src) <= s.Pts(dst) ==> s.Pts(dst) + s.Pts(src) == s.Pts(dst);
  }
}
