// Collapsing strongly connected components of the copy graph: what the solver's state is after
// any number of merges, and why the worklist invariant survives when whole components are merged.
module Collapse {
  import opened Graphs
  import opened PointsTo
  import opened NodeFactory

  // The copy edges between representatives.
  ghost function CopyGraph(s: State): Graph {
    map n | n in s.AllReps() :: s.Succ(n)
  }

  // The representatives of "s" that "t" has merged into "r".
  ghost function Members(s: State, t: State, r: nat): set<nat> {
    set m | m in s.AllReps() && m < |t.rep| && t.rep[m] == r
  }

  ghost predicate IsUnion(whole: set<nat>, part: nat -> set<nat>, ms: set<nat>) {
    && (forall m :: m in ms ==> part(m) <= whole)
    && (forall o :: o in whole ==> exists m :: m in ms && o in part(m))
  }

  ghost predicate GathersAt(s: State, t: State, r: nat) {
    var ms := Members(s, t, r);
    && IsUnion(t.Pts(r), n => s.Pts(n), ms)
    && IsUnion(t.EdgesOf(r).copy, n => s.EdgesOf(n).copy, ms)
    && IsUnion(t.EdgesOf(r).load, n => s.EdgesOf(n).load, ms)
    && IsUnion(t.EdgesOf(r).store, n => s.EdgesOf(n).store, ms)
  }

  // "t" is "s" with some representatives merged: sets and edges are the unions over the merged.
  ghost predicate IsQuotient(s: State, t: State) {
    && s.WellFormed() && t.WellFormed()
    && |t.rep| == |s.rep|
    && (forall n {:trigger t.rep[n]} :: 0 <= n < |s.rep| ==> s.IsRep(t.rep[n]) && t.rep[n] == t.rep[s.rep[n]])
    && (forall r {:trigger GathersAt(s, t, r)} :: GathersAt(s, t, r))
  }

  // What is merged is one whole strongly connected component.
  ghost predicate MergesSccs(s: State, t: State) {
    && |t.rep| == |s.rep|
    && (forall m: nat, k: nat :: s.IsRep(m) && s.IsRep(k) && t.rep[m] == t.rep[k] ==> SameScc(CopyGraph(s), m, k))
    && (forall m: nat, k: nat, x: nat :: s.IsRep(m) && s.IsRep(k) && m != k && t.rep[m] == t.rep[k] && s.IsRep(x) && SameScc(CopyGraph(s), m, x) ==>
          t.rep[x] == t.rep[m])
  }

  lemma QuotientReflexive(s: State)
    requires s.WellFormed()
    ensures IsQuotient(s, s)
  {
    forall r: nat ensures GathersAt(s, s, r) {
      assert Members(s, s, r) == if s.IsRep(r) then {r} else {};
    }
  }

  // Edges survive merging ...
  lemma QuotientKeepsSucc(s: State, t: State, m: nat, y: nat)
    requires IsQuotient(s, t) && s.IsRep(m) && y in s.Succ(m)
    ensures y < |t.rep| && t.rep[y] in t.Succ(t.rep[m])
  {
    var e :| e in s.EdgesOf(m).copy && e < |s.rep| && s.rep[e] == y;
    assert GathersAt(s, t, t.rep[m]);
    assert m in Members(s, t, t.rep[m]);
    assert e in t.EdgesOf(t.rep[m]).copy;
    assert t.rep[e] == t.rep[y];
  }

  lemma QuotientKeepsLoad(s: State, t: State, m: nat, y: nat)
    requires IsQuotient(s, t) && s.IsRep(m) && y in s.LoadTo(m)
    ensures y < |t.rep| && t.rep[y] in t.LoadTo(t.rep[m])
  {
    var e :| e in s.EdgesOf(m).load && e < |s.rep| && s.rep[e] == y;
    assert GathersAt(s, t, t.rep[m]);
    assert m in Members(s, t, t.rep[m]);
    assert e in t.EdgesOf(t.rep[m]).load;
    assert t.rep[e] == t.rep[y];
  }

  lemma QuotientKeepsStore(s: State, t: State, m: nat, y: nat)
    requires IsQuotient(s, t) && s.IsRep(m) && y in s.StoreFrom(m)
    ensures y < |t.rep| && t.rep[y] in t.StoreFrom(t.rep[m])
  {
    var e :| e in s.EdgesOf(m).store && e < |s.rep| && s.rep[e] == y;
    assert GathersAt(s, t, t.rep[m]);
    assert m in Members(s, t, t.rep[m]);
    assert e in t.EdgesOf(t.rep[m]).store;
    assert t.rep[e] == t.rep[y];
  }

  // ... and come from an edge of a merged node.
  lemma QuotientSuccFrom(s: State, t: State, r: nat, z: nat) returns (m: nat, y: nat)
    requires IsQuotient(s, t) && z in t.Succ(r)
    ensures s.IsRep(m) && t.rep[m] == r && y in s.Succ(m) && s.IsRep(y) && t.rep[y] == z
  {
    var e :| e in t.EdgesOf(r).copy && e < |t.rep| && t.rep[e] == z;
    assert GathersAt(s, t, r);
    m :| m in Members(s, t, r) && e in s.EdgesOf(m).copy;
    y := s.rep[e];
    assert t.rep[e] == t.rep[s.rep[e]];
  }

  lemma QuotientLoadFrom(s: State, t: State, r: nat, z: nat) returns (m: nat, y: nat)
    requires IsQuotient(s, t) && z in t.LoadTo(r)
    ensures s.IsRep(m) && t.rep[m] == r && y in s.LoadTo(m) && s.IsRep(y) && t.rep[y] == z
  {
    var e :| e in t.EdgesOf(r).load && e < |t.rep| && t.rep[e] == z;
    assert GathersAt(s, t, r);
    m :| m in Members(s, t, r) && e in s.EdgesOf(m).load;
    y := s.rep[e];
    assert t.rep[e] == t.rep[s.rep[e]];
  }

  lemma QuotientStoreFrom(s: State, t: State, r: nat, z: nat) returns (m: nat, y: nat)
    requires IsQuotient(s, t) && z in t.StoreFrom(r)
    ensures s.IsRep(m) && t.rep[m] == r && y in s.StoreFrom(m) && s.IsRep(y) && t.rep[y] == z
  {
    var e :| e in t.EdgesOf(r).store && e < |t.rep| && t.rep[e] == z;
    assert GathersAt(s, t, r);
    m :| m in Members(s, t, r) && e in s.EdgesOf(m).store;
    y := s.rep[e];
    assert t.rep[e] == t.rep[s.rep[e]];
  }

  lemma QuotientKeepsPts(s: State, t: State, m: nat)
    requires IsQuotient(s, t) && s.IsRep(m)
    ensures s.Pts(m) <= t.Pts(t.rep[m])
  {
    assert GathersAt(s, t, t.rep[m]);
    assert m in Members(s, t, t.rep[m]);
  }

  lemma QuotientKeepsCovers(s: State, t: State, cs: seq<Constraint>)
    requires IsQuotient(s, t) && InRange(cs, |s.rep|) && s.Covers(cs)
    ensures t.Covers(cs)
  {
    hide IsQuotient, State.Succ, State.LoadTo, State.StoreFrom;
    assert |t.rep| == |s.rep| by { QuotientSize(s, t); }
    forall c | c in cs ensures t.CoversOne(c) {
      assert s.CoversOne(c);
      QuotientRep(s, t, c.dest);
      QuotientRep(s, t, c.src);
      match c
      case AddrOf(d, x) => QuotientKeepsPts(s, t, s.rep[d]);
      case Copy(d, x) => QuotientKeepsSucc(s, t, s.rep[x], s.rep[d]);
      case Load(d, p) => QuotientKeepsLoad(s, t, s.rep[p], s.rep[d]);
      case Store(p, x) => QuotientKeepsStore(s, t, s.rep[p], s.rep[x]);
    }
  }

  lemma QuotientSize(s: State, t: State)
    requires IsQuotient(s, t)
    ensures |t.rep| == |s.rep|
  {
  }

  lemma QuotientRep(s: State, t: State, n: nat)
    requires IsQuotient(s, t) && n < |s.rep|
    ensures n < |t.rep| && s.IsRep(s.rep[n]) && s.IsRep(t.rep[n]) && t.rep[n] == t.rep[s.rep[n]]
  {
  }

  // Soundness: an assignment above the state is constant on a component of the copy graph.
  lemma {:induction false} BelowAlongPath(s: State, a: Assignment, p: seq<nat>)
    requires s.Below(a) && IsPath(CopyGraph(s), p)
    ensures a(p[0]) <= a(p[|p| - 1])
  {
    if |p| > 1 {
      FirstEdge(s, p);
      BelowEdge(s, a, p[0], p[1]);
      hide State.Below, IsPath;
      BelowAlongPath(s, a, p[1..]);
    }
  }

  lemma FirstEdge(s: State, p: seq<nat>)
    requires IsPath(CopyGraph(s), p) && |p| > 1
    ensures s.IsRep(p[0]) && p[1] in s.Succ(p[0]) && IsPath(CopyGraph(s), p[1..])
  {
    hide State.Succ;
    assert p[1] in CopyGraph(s)[p[0]];
  }

  lemma BelowEdge(s: State, a: Assignment, n: nat, d: nat)
    requires s.Below(a) && s.IsRep(n) && d in s.Succ(n)
    ensures a(n) <= a(d)
  {
    hide State.Succ, State.LoadTo, State.StoreFrom, State.Pts;
  }

  lemma BelowOnScc(s: State, a: Assignment, m: nat, k: nat)
    requires s.Below(a) && SameScc(CopyGraph(s), m, k)
    ensures a(m) == a(k)
  {
    hide State.Below, CopyGraph, IsPath;
    var p :| IsPathBetween(CopyGraph(s), m, k, p);
    var q :| IsPathBetween(CopyGraph(s), k, m, q);
    BelowAlongPath(s, a, p);
    BelowAlongPath(s, a, q);
  }

  lemma QuotientRespects(s: State, t: State, a: Assignment)
    requires IsQuotient(s, t) && MergesSccs(s, t) && s.Below(a)
    ensures Respects(a, t.rep)
  {
    hide SameScc, CopyGraph, State.Below;
    assert Respects(a, s.rep) by { BelowRespects(s, a); }
    forall n | 0 <= n < |t.rep| ensures a(n) == a(t.rep[n]) {
      var m, k := s.rep[n], t.rep[n];
      assert t.WellFormed() && t.IsRep(k);
      assert SameScc(CopyGraph(s), m, k);
      BelowOnScc(s, a, m, k);
    }
  }

  lemma BelowRespects(s: State, a: Assignment)
    requires s.Below(a)
    ensures Respects(a, s.rep)
  {
  }

  lemma QuotientSetsBelow(s: State, t: State, a: Assignment)
    requires IsQuotient(s, t) && s.Below(a) && Respects(a, t.rep)
    ensures forall n :: t.IsRep(n) ==> t.Pts(n) <= a(n)
  {
    forall n, o | t.IsRep(n) && o in t.Pts(n) ensures o in a(n) {
      assert GathersAt(s, t, n);
      var m :| m in Members(s, t, n) && o in s.Pts(m);
      assert s.IsRep(m) && a(m) == a(t.rep[m]);
    }
  }

  lemma QuotientCopiesBelow(s: State, t: State, a: Assignment)
    requires IsQuotient(s, t) && s.Below(a) && Respects(a, t.rep)
    ensures forall n, d :: t.IsRep(n) && d in t.Succ(n) ==> a(n) <= a(d)
  {
    hide IsQuotient, State.Succ, State.LoadTo, State.StoreFrom;
    forall n, d | t.IsRep(n) && d in t.Succ(n) ensures a(n) <= a(d) {
      var m, y := QuotientSuccFrom(s, t, n, d);
      QuotientRep(s, t, m);
      QuotientRep(s, t, y);
      assert a(m) == a(n) && a(y) == a(d);
    }
  }

  lemma QuotientLoadsBelow(s: State, t: State, a: Assignment)
    requires IsQuotient(s, t) && s.Below(a) && Respects(a, t.rep)
    ensures forall n, d, v :: t.IsRep(n) && d in t.LoadTo(n) && v in a(n) ==> a(v) <= a(d)
  {
    hide IsQuotient, State.Succ, State.LoadTo, State.StoreFrom;
    forall n, d, v | t.IsRep(n) && d in t.LoadTo(n) && v in a(n) ensures a(v) <= a(d) {
      var m, y := QuotientLoadFrom(s, t, n, d);
      QuotientRep(s, t, m);
      QuotientRep(s, t, y);
      assert a(m) == a(n) && a(y) == a(d);
    }
  }

  lemma QuotientStoresBelow(s: State, t: State, a: Assignment)
    requires IsQuotient(s, t) && s.Below(a) && Respects(a, t.rep)
    ensures forall n, x, v :: t.IsRep(n) && x in t.StoreFrom(n) && v in a(n) ==> a(x) <= a(v)
  {
    hide IsQuotient, State.Succ, State.LoadTo, State.StoreFrom;
    forall n, x, v | t.IsRep(n) && x in t.StoreFrom(n) && v in a(n) ensures a(x) <= a(v) {
      var m, y := QuotientStoreFrom(s, t, n, x);
      QuotientRep(s, t, m);
      QuotientRep(s, t, y);
      assert a(m) == a(n) && a(y) == a(x);
    }
  }

  lemma QuotientStaysBelow(s: State, t: State, a: Assignment)
    requires IsQuotient(s, t) && MergesSccs(s, t) && s.Below(a)
    ensures t.Below(a)
  {
    QuotientRespects(s, t, a);
    QuotientCopiesBelow(s, t, a);
    QuotientLoadsBelow(s, t, a);
    QuotientStoresBelow(s, t, a);
    QuotientSetsBelow(s, t, a);
    hide IsQuotient, MergesSccs, State.Succ, State.LoadTo, State.StoreFrom, State.Pts, Respects;
  }

  // Completeness: nodes of one component that are all done point to the same objects.
  lemma {:induction false} DoneAlongPath(s: State, p: seq<nat>)
    requires IsPath(CopyGraph(s), p) && forall i :: 0 <= i < |p| ==> s.Done(p[i])
    ensures s.Pts(p[0]) <= s.Pts(p[|p| - 1])
  {
    if |p| > 1 {
      assert s.Done(p[0]) && p[1] in s.Succ(p[0]);
      DoneAlongPath(s, p[1..]);
    }
  }

  // A path between two nodes of a component stays in the component.
  lemma PathWithinScc(g: Graph, m: nat, k: nat, p: seq<nat>, i: nat)
    requires IsPathBetween(g, m, k, p) && Reaches(g, k, m) && i < |p|
    ensures SameScc(g, m, p[i])
  {
    assert IsPathBetween(g, m, p[i], p[..i + 1]);
    assert IsPathBetween(g, p[i], k, p[i..]);
    ReachesTransitive(g, p[i], k, m);
  }

  lemma MergedPtsEqual(s: State, t: State, m: nat, k: nat)
    requires MergesSccs(s, t) && s.IsRep(m) && s.IsRep(k) && t.rep[m] == t.rep[k]
    requires forall x: nat :: s.IsRep(x) && t.rep[x] == t.rep[m] ==> s.Done(x)
    ensures s.Pts(m) <= s.Pts(k)
  {
    hide State.Done;
    if m != k {
      var g := CopyGraph(s);
      assert SameScc(g, m, k);
      var p :| IsPathBetween(g, m, k, p);
      forall i | 0 <= i < |p| ensures s.Done(p[i]) {
        PathWithinScc(g, m, k, p, i);
        assert s.IsRep(p[i]);
      }
      DoneAlongPath(s, p);
    }
  }

  lemma MergedPts(s: State, t: State, r: nat, m: nat)
    requires IsQuotient(s, t) && MergesSccs(s, t) && s.IsRep(m) && t.rep[m] == r
    requires forall x: nat :: s.IsRep(x) && t.rep[x] == r ==> s.Done(x)
    ensures t.Pts(r) == s.Pts(m)
  {
    hide State.Done, MergesSccs;
    assert GathersAt(s, t, r);
    assert m in Members(s, t, r);
    forall o | o in t.Pts(r) ensures o in s.Pts(m) {
      var k :| k in Members(s, t, r) && o in s.Pts(k);
      MergedPtsEqual(s, t, k, m);
    }
  }

  lemma QuotientDone(s: State, t: State, r: nat)
    requires IsQuotient(s, t) && MergesSccs(s, t)
    requires forall x: nat :: s.IsRep(x) && t.rep[x] == r ==> s.Done(x)
    ensures t.Done(r)
  {
    hide IsQuotient, MergesSccs, State.Succ, State.LoadTo, State.StoreFrom, State.Pts;
    forall d | d in t.Succ(r) ensures t.Pts(r) <= t.Pts(d) {
      var m, y := QuotientSuccFrom(s, t, r, d);
      MergedPts(s, t, r, m);
      QuotientKeepsPts(s, t, y);
      assert s.Done(m);
    }
    forall v, d | v in t.Pts(r) && v < |t.rep| && d in t.LoadTo(r) ensures d in t.Succ(t.rep[v]) {
      var m, y := QuotientLoadFrom(s, t, r, d);
      MergedPts(s, t, r, m);
      QuotientSize(s, t);
      QuotientRep(s, t, v);
      assert s.Done(m);
      QuotientKeepsSucc(s, t, s.rep[v], y);
    }
    forall v, x | v in t.Pts(r) && v < |t.rep| && x in t.StoreFrom(r) ensures t.rep[v] in t.Succ(x) {
      var m, y := QuotientStoreFrom(s, t, r, x);
      MergedPts(s, t, r, m);
      QuotientSize(s, t);
      QuotientRep(s, t, v);
      assert s.Done(m);
      QuotientKeepsSucc(s, t, y, s.rep[v]);
    }
  }

  // Merging whole components keeps the worklist invariant, although merging part of one may not.
  lemma QuotientKeepsSettled(s: State, t: State, work: set<nat>)
    requires IsQuotient(s, t) && MergesSccs(s, t) && s.Settled(work)
    ensures t.Settled(work)
  {
    hide IsQuotient, MergesSccs, State.Done;
    forall r | t.IsRep(r) && !t.Pending(r, work) ensures t.Done(r) {
      assert |t.rep| == |s.rep| by { QuotientSize(s, t); }
      forall x: nat | s.IsRep(x) && t.rep[x] == r ensures s.Done(x) {
        if s.Pending(x, work) {
          var w :| w in work && w < |s.rep| && s.rep[w] == x;
          QuotientRep(s, t, w);
        }
      }
      QuotientDone(s, t, r);
    }
  }

  // Merging shrinks the set of representatives, or does nothing at all.
  lemma QuotientMeasure(s: State, t: State)
    requires IsQuotient(s, t)
    ensures t.AllReps() <= s.AllReps()
    ensures t.AllReps() == s.AllReps() ==> t.MissingPts() == s.MissingPts() && t.MissingCopies() == s.MissingCopies()
  {
    hide IsQuotient, State.Pts, State.EdgesOf;
    QuotientSize(s, t);
    forall r | r in t.AllReps() ensures r in s.AllReps() {
      QuotientRep(s, t, r);
    }
    if t.AllReps() == s.AllReps() {
      forall r | r in s.AllReps() ensures t.Pts(r) == s.Pts(r) && t.EdgesOf(r).copy == s.EdgesOf(r).copy {
        SameRepsSamePart(s, t, r);
      }
      forall n: nat | n < |s.rep| ensures t.rep[n] == n <==> s.rep[n] == n {
        assert n in t.AllReps() <==> t.rep[n] == n;
        assert n in s.AllReps() <==> s.rep[n] == n;
      }
    }
  }

  lemma SameRepsSamePart(s: State, t: State, r: nat)
    requires IsQuotient(s, t) && t.AllReps() == s.AllReps() && r in s.AllReps()
    ensures t.rep[r] == r && t.Pts(r) == s.Pts(r) && t.EdgesOf(r).copy == s.EdgesOf(r).copy
  {
    assert GathersAt(s, t, r);
    assert Members(s, t, r) == {r} by {
      forall m | m in Members(s, t, r) ensures m == r {
        assert m in t.AllReps();
      }
      assert r in t.AllReps();
    }
  }

  // One merge of two representatives.
  ghost predicate MergesTwo(s: State, t: State, dst: nat, src: nat) {
    && s.WellFormed() && t.WellFormed() && s.IsRep(dst) && s.IsRep(src) && dst != src
    && t.rep == Merged(s.rep, dst, src)
    && t.Pts(dst) == s.Pts(dst) + s.Pts(src)
    && t.EdgesOf(dst) == Edges(s.EdgesOf(dst).copy + s.EdgesOf(src).copy,
                               s.EdgesOf(dst).load + s.EdgesOf(src).load,
                               s.EdgesOf(dst).store + s.EdgesOf(src).store)
    && t.Pts(src) == {} && t.EdgesOf(src) == NoEdges
    && (forall n :: n != dst && n != src ==> t.Pts(n) == s.Pts(n))
    && (forall n :: n != dst && n != src ==> t.EdgesOf(n) == s.EdgesOf(n))
  }

  ghost predicate MovesEdges(s: State, t: State, dst: nat, src: nat) {
    && t.graph.Keys == s.graph.Keys - {src} + (if src in s.graph then {dst} else {})
    && (forall n :: n != dst && n != src ==> t.EdgesOf(n) == s.EdgesOf(n))
    && t.EdgesOf(dst) == Edges(s.EdgesOf(dst).copy + s.EdgesOf(src).copy,
                               s.EdgesOf(dst).load + s.EdgesOf(src).load,
                               s.EdgesOf(dst).store + s.EdgesOf(src).store)
  }

  lemma EdgesInRange(s: State, n: nat)
    requires s.WellFormed()
    ensures IdsBelow(s.EdgesOf(n).copy, |s.rep|) && IdsBelow(s.EdgesOf(n).load, |s.rep|) && IdsBelow(s.EdgesOf(n).store, |s.rep|)
  {
  }

  lemma MovedEdgesInRange(s: State, t: State, dst: nat, src: nat, n: nat)
    requires s.WellFormed() && s.IsRep(dst) && s.IsRep(src) && dst != src && |t.rep| == |s.rep|
    requires MovesEdges(s, t, dst, src) && n in t.graph
    ensures n != src && s.IsRep(n)
    ensures IdsBelow(t.graph[n].copy, |t.rep|) && IdsBelow(t.graph[n].load, |t.rep|) && IdsBelow(t.graph[n].store, |t.rep|)
  {
    assert s.IsRep(n);
    assert t.graph[n] == t.EdgesOf(n);
    EdgesInRange(s, n);
    EdgesInRange(s, dst);
    EdgesInRange(s, src);
  }

  lemma MovedIsWellFormed(s: State, t: State, dst: nat, src: nat)
    requires s.WellFormed() && s.IsRep(dst) && s.IsRep(src) && dst != src
    requires t.rep == Merged(s.rep, dst, src)
    requires t.pts == (if src in s.pts then s.pts[dst := s.Pts(dst) + s.Pts(src)] else s.pts) - {src}
    requires MovesEdges(s, t, dst, src)
    ensures t.WellFormed()
  {
    forall n | n in t.graph
      ensures t.IsRep(n) && IdsBelow(t.graph[n].copy, |t.rep|) && IdsBelow(t.graph[n].load, |t.rep|) && IdsBelow(t.graph[n].store, |t.rep|)
    {
      MovedEdgesInRange(s, t, dst, src, n);
    }
  }

  lemma MergesTwoFrom(s: State, t: State, dst: nat, src: nat)
    requires s.WellFormed() && s.IsRep(dst) && s.IsRep(src) && dst != src
    requires t.rep == Merged(s.rep, dst, src)
    requires t.pts == (if src in s.pts then s.pts[dst := s.Pts(dst) + s.Pts(src)] else s.pts) - {src}
    requires MovesEdges(s, t, dst, src)
    ensures MergesTwo(s, t, dst, src)
  {
    MovedIsWellFormed(s, t, dst, src);
    MovedSets(s, t, dst, src);
    hide State.WellFormed, State.Pts;
  }

  lemma MovedSets(s: State, t: State, dst: nat, src: nat)
    requires dst != src
    requires t.pts == (if src in s.pts then s.pts[dst := s.Pts(dst) + s.Pts(src)] else s.pts) - {src}
    ensures t.Pts(dst) == s.Pts(dst) + s.Pts(src) && t.Pts(src) == {}
    ensures forall n :: n != dst && n != src ==> t.Pts(n) == s.Pts(n)
  {
  }

  lemma MergeMembers(s0: State, s: State, t: State, dst: nat, src: nat, r: nat)
    requires IsQuotient(s0, s) && MergesTwo(s, t, dst, src)
    ensures Members(s0, t, r) == if r == dst then Members(s0, s, dst) + Members(s0, s, src)
                                 else if r == src then {} else Members(s0, s, r)
  {
  }

  lemma MergeUnion(whole: set<nat>, whole': set<nat>, part: nat -> set<nat>, ms: set<nat>, ms': set<nat>)
    requires IsUnion(whole, part, ms) && IsUnion(whole', part, ms')
    ensures IsUnion(whole + whole', part, ms + ms')
  {
    forall o | o in whole + whole' ensures exists m :: m in ms + ms' && o in part(m) {
      if o in whole {
        var m :| m in ms && o in part(m);
        assert m in ms + ms';
      } else {
        var m :| m in ms' && o in part(m);
        assert m in ms + ms';
      }
    }
  }

  lemma MergeGathers(s0: State, s: State, t: State, dst: nat, src: nat, r: nat)
    requires IsQuotient(s0, s) && MergesTwo(s, t, dst, src)
    ensures GathersAt(s0, t, r)
  {
    hide IsUnion, State.WellFormed, Members;
    MergeMembers(s0, s, t, dst, src, r);
    assert GathersAt(s0, s, r);
    if r == dst {
      assert GathersAt(s0, s, src);
      var ms, ms' := Members(s0, s, dst), Members(s0, s, src);
      MergeUnion(s.Pts(dst), s.Pts(src), n => s0.Pts(n), ms, ms');
      MergeUnion(s.EdgesOf(dst).copy, s.EdgesOf(src).copy, n => s0.EdgesOf(n).copy, ms, ms');
      MergeUnion(s.EdgesOf(dst).load, s.EdgesOf(src).load, n => s0.EdgesOf(n).load, ms, ms');
      MergeUnion(s.EdgesOf(dst).store, s.EdgesOf(src).store, n => s0.EdgesOf(n).store, ms, ms');
    } else if r == src {
      NothingGathers(s0, t, r);
    }
  }

  lemma NothingGathers(s: State, t: State, r: nat)
    requires Members(s, t, r) == {} && t.Pts(r) == {} && t.EdgesOf(r) == NoEdges
    ensures GathersAt(s, t, r)
  {
  }

  lemma MergeKeepsQuotient(s0: State, s: State, t: State, dst: nat, src: nat)
    requires IsQuotient(s0, s) && MergesTwo(s, t, dst, src)
    ensures IsQuotient(s0, t)
  {
    hide GathersAt;
    forall r: nat ensures GathersAt(s0, t, r) {
      MergeGathers(s0, s, t, dst, src, r);
    }
    QuotientRep(s0, s, dst);
  }
}
