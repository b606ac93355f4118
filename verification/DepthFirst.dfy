// The depth-first search behind cycle detection.  One number per node serves as visiting time
// first and as low-link after; nodes that are not the root of their component wait until the
// root closes the component.
module DepthFirst {
  import opened Graphs

  // "num" is overwritten as the search learns about older nodes, "born" keeps the first value;
  // "path" holds the nodes whose visit is under way, "waiting" those on the component stack.
  datatype Search = Search(num: map<nat, nat>, born: map<nat, nat>, time: nat,
                           path: set<nat>, waiting: set<nat>, done: set<nat>) {

    // Visited nodes are on the path, waiting or done, and one of these only.
    ghost predicate Partitioned(g: Graph) {
      && num.Keys == born.Keys && num.Keys <= g.Keys
      && num.Keys == path + waiting + done
      && path !! waiting && path !! done && waiting !! done
    }

    ghost predicate Timed() {
      num.Keys == born.Keys && forall x :: x in num ==> num[x] <= born[x] < time
    }

    // An open node reaches a path node at least as old as its number.
    ghost predicate Anchors(g: Graph, x: nat, p: nat) {
      && p in path && p in born && x in num
      && born[p] <= num[x]
      && Reaches(g, x, p)
    }

    ghost predicate HasAnchor(g: Graph, x: nat) {
      exists p :: Anchors(g, x, p)
    }

    ghost predicate Anchored(g: Graph) {
      forall x {:trigger HasAnchor(g, x)} :: x in path + waiting ==> HasAnchor(g, x)
    }

    // The number of "x" accounts for its successor "y".
    ghost predicate Accounts(x: nat, y: nat) {
      && y in num
      && (y !in done ==> x in num && y in born && num[x] <= born[y])
    }

    ghost predicate WaitingFinished(g: Graph) {
      forall x, y :: x in waiting && x in g && y in g[x] ==> Accounts(x, y)
    }

    ghost predicate DoneClosed(g: Graph) {
      forall x :: x in done && x in g ==> g[x] <= done
    }

    ghost predicate Inv(g: Graph) {
      && Closed(g) && Partitioned(g) && Timed()
      && Anchored(g) && WaitingFinished(g) && DoneClosed(g)
    }

    // A waiting node that the visit of "v" left behind.
    ghost predicate LeftBehind(g: Graph, v: nat, w: nat) {
      && v in num && v in born && w in num && w in born
      && num[v] <= num[w] && born[v] < born[w]
      && Reaches(g, v, w)
    }

    ghost predicate LeftByChild(g: Graph, v: nat, y: nat, w: nat) {
      && v in born && y in num && w in num && w in born
      && num[y] <= num[w] && born[v] < born[w]
      && Reaches(g, y, w)
    }

    // "v" is the innermost node of the path.
    ghost predicate Innermost(g: Graph, v: nat) {
      && v in path && v in num && v in born
      && (forall p :: p in path ==> p in born && Reaches(g, p, v))
      && (forall p :: p in path && p != v ==> born[p] < born[v])
    }

    // The visit of "v", which found "base" waiting and has looked at the successors "seen".
    ghost predicate Visiting(g: Graph, v: nat, base: set<nat>, seen: set<nat>) {
      && Innermost(g, v) && base <= waiting
      && (forall x :: x in base ==> x in born && born[x] < born[v])
      && (forall x :: x in waiting && x !in base ==> LeftBehind(g, v, x))
      && (forall y :: y in seen ==> Accounts(v, y))
    }

    // The same just after looking at "y": what "y" left waiting is not yet reflected in the
    // number of "v".
    ghost predicate VisitingChild(g: Graph, v: nat, base: set<nat>, seen: set<nat>, y: nat) {
      && Innermost(g, v) && base <= waiting && y in num
      && (forall x :: x in base ==> x in born && born[x] < born[v])
      && (forall x :: x in waiting && x !in base ==> LeftBehind(g, v, x) || (y !in done && LeftByChild(g, v, y, x)))
      && (forall z :: z in seen ==> Accounts(v, z))
    }

    // Only new nodes have been numbered since the search was at "d".
    ghost predicate Since(d: Search) {
      && d.time <= time && d.done <= done && d.waiting <= waiting
      && d.num.Keys <= num.Keys && d.born.Keys <= born.Keys
      && (forall x :: x in d.num ==> num[x] == d.num[x])
      && (forall x :: x in d.born ==> born[x] == d.born[x])
    }

    // What a completed visit of "v" has done to the search "d" it started from.
    ghost predicate Returned(g: Graph, d: Search, v: nat) {
      && Since(d) && path == d.path
      && v in num && v in born
      && (v in done ==> waiting == d.waiting)
      && (forall x :: x in waiting && x !in d.waiting ==> v !in done && LeftOver(g, d, v, x))
    }

    ghost predicate LeftOver(g: Graph, d: Search, v: nat, w: nat) {
      && v in num && w in num && w in born
      && num[v] <= num[w] && d.time <= born[w]
      && Reaches(g, v, w)
    }

    // The moves of the search.
    ghost function Enter(v: nat): Search {
      this.(num := num[v := time], born := born[v := time], time := time + 1, path := path + {v})
    }

    ghost function Lower(v: nat, y: nat): Search
      requires v in num && y in num
    {
      if y !in done && num[v] > num[y] then this.(num := num[v := num[y]]) else this
    }

    ghost function Leave(v: nat): Search {
      this.(path := path - {v}, waiting := waiting + {v})
    }

    ghost function Close(v: nat, base: set<nat>): Search {
      this.(path := path - {v}, waiting := base, done := done + {v} + (waiting - base))
    }
  }

  lemma EnterKeeps(g: Graph, d: Search, v: nat)
    requires d.Inv(g) && v in g && v !in d.num
    requires forall p :: p in d.path ==> Reaches(g, p, v)
    ensures d.Enter(v).Inv(g)
    ensures d.Enter(v).Visiting(g, v, d.waiting, {})
    ensures d.Enter(v).Since(d)
  {
    EnterAnchored(g, d, v);
    ReachesSelf(g, v);
    EnterKeepsRest(g, d, v);
    hide Reaches, Search.LeftBehind, Search.HasAnchor, Search.Anchored, Search.WaitingFinished, Search.DoneClosed, Search.Accounts;
  }

  // The new node neither waits nor is done.
  lemma EnterKeepsRest(g: Graph, d: Search, v: nat)
    requires d.Partitioned(g) && d.WaitingFinished(g) && d.DoneClosed(g) && v !in d.num
    ensures d.Enter(v).WaitingFinished(g) && d.Enter(v).DoneClosed(g)
  {
    var e := d.Enter(v);
    forall x, y | x in e.waiting && x in g && y in g[x] ensures e.Accounts(x, y) {
      assert d.Accounts(x, y);
    }
  }

  lemma EnterAnchored(g: Graph, d: Search, v: nat)
    requires d.Timed() && d.Anchored(g) && v in g && v !in d.num && v !in d.path + d.waiting
    ensures d.Enter(v).Anchored(g)
  {
    hide Reaches;
    var e := d.Enter(v);
    ReachesSelf(g, v);
    forall x {:trigger e.HasAnchor(g, x)} | x in e.path + e.waiting ensures e.HasAnchor(g, x) {
      if x == v {
        assert e.Anchors(g, x, v);
      } else {
        assert d.HasAnchor(g, x);
        var p :| d.Anchors(g, x, p);
        assert e.Anchors(g, x, p);
      }
    }
  }

  lemma ChildReturned(g: Graph, d: Search, e: Search, v: nat, base: set<nat>, seen: set<nat>, y: nat)
    requires d.Inv(g) && e.Inv(g) && d.Visiting(g, v, base, seen) && e.Returned(g, d, y)
    ensures e.VisitingChild(g, v, base, seen, y)
  {
    hide Reaches;
    forall x | x in e.waiting && x !in base
      ensures e.LeftBehind(g, v, x) || (y !in e.done && e.LeftByChild(g, v, y, x))
    {
      if x in d.waiting {
        assert d.LeftBehind(g, v, x);
      } else {
        assert e.LeftOver(g, d, y, x);
      }
    }
    forall z | z in seen ensures e.Accounts(v, z) {
      assert d.Accounts(v, z);
    }
  }

  lemma LowerVisits(g: Graph, d: Search, v: nat, base: set<nat>, seen: set<nat>, y: nat)
    requires d.Inv(g) && d.VisitingChild(g, v, base, seen, y) && v in g && y in g[v]
    ensures d.Lower(v, y).Visiting(g, v, base, seen + {y})
  {
    hide Reaches;
    var e := d.Lower(v, y);
    forall w | w in e.waiting && w !in base ensures e.LeftBehind(g, v, w) {
      if !d.LeftBehind(g, v, w) {
        assert d.LeftByChild(g, v, y, w);
        ReachesEdge(g, v, y);
        ReachesTransitive(g, v, y, w);
      }
    }
    forall z | z in seen + {y} ensures e.Accounts(v, z) {
      assert z in seen ==> d.Accounts(v, z);
    }
  }

  lemma LowerKeeps(g: Graph, d: Search, v: nat, y: nat)
    requires d.Inv(g) && d.Innermost(g, v) && v in g && y in g[v] && y in d.num
    ensures d.Lower(v, y).Inv(g)
  {
    hide Reaches;
    var e := d.Lower(v, y);
    if e != d {
      forall x {:trigger e.HasAnchor(g, x)} | x in e.path + e.waiting ensures e.HasAnchor(g, x) {
        if x == v {
          assert d.HasAnchor(g, y);
          var p :| d.Anchors(g, y, p);
          ReachesEdge(g, v, y);
          ReachesTransitive(g, v, y, p);
          assert e.Anchors(g, x, p);
        } else {
          assert d.HasAnchor(g, x);
          var p :| d.Anchors(g, x, p);
          assert e.Anchors(g, x, p);
        }
      }
      forall x, z | x in e.waiting && x in g && z in g[x] ensures e.Accounts(x, z) {
        assert d.Accounts(x, z);
      }
    }
  }

  // A node whose number fell below its birth waits: some older path node is reachable from it.
  lemma LeaveKeeps(g: Graph, d: Search, v: nat, base: set<nat>)
    requires v in g && d.Inv(g) && d.Visiting(g, v, base, g[v])
    requires d.num[v] < d.born[v]
    ensures d.Leave(v).Inv(g)
  {
    hide Reaches;
    var e := d.Leave(v);
    assert d.HasAnchor(g, v);
    var q :| d.Anchors(g, v, q);
    assert q != v;
    forall x {:trigger e.HasAnchor(g, x)} | x in e.path + e.waiting ensures e.HasAnchor(g, x) {
      assert d.HasAnchor(g, x);
      var p :| d.Anchors(g, x, p);
      if p == v {
        ReachesTransitive(g, x, v, q);
        assert e.Anchors(g, x, q);
      } else {
        assert e.Anchors(g, x, p);
      }
    }
    forall x, y | x in e.waiting && x in g && y in g[x] ensures e.Accounts(x, y) {
      assert d.Accounts(x, y);
    }
  }

  lemma LeaveReturns(g: Graph, d0: Search, d: Search, v: nat)
    requires v in g && d.Inv(g) && d.Visiting(g, v, d0.waiting, g[v])
    requires d.Since(d0) && d.path == d0.path + {v} && v !in d0.path && d.born[v] == d0.time
    ensures d.Leave(v).Returned(g, d0, v)
  {
    hide Reaches;
    var e := d.Leave(v);
    ReachesSelf(g, v);
    forall x | x in e.waiting && x !in d0.waiting ensures e.LeftOver(g, d0, v, x) {
      if x != v {
        assert d.LeftBehind(g, v, x);
      }
    }
  }

  // A node whose number still is its birth closes its component.
  lemma CloseKeeps(g: Graph, d: Search, v: nat, base: set<nat>)
    requires v in g && d.Inv(g) && d.Visiting(g, v, base, g[v])
    requires d.num[v] == d.born[v]
    ensures d.Close(v, base).Inv(g)
  {
    hide Reaches;
    var e := d.Close(v, base);
    forall x {:trigger e.HasAnchor(g, x)} | x in e.path + e.waiting ensures e.HasAnchor(g, x) {
      assert d.HasAnchor(g, x);
      var p :| d.Anchors(g, x, p);
      assert d.born[x] < d.born[v];
      assert e.Anchors(g, x, p);
    }
    forall x, y | x in e.done && x in g && y in g[x] ensures y in e.done {
      if x !in d.done {
        assert x == v || d.LeftBehind(g, v, x);
        assert d.Accounts(x, y);
        if y !in d.done {
          assert d.born[v] <= d.born[y];
        }
      }
    }
    forall x, y | x in e.waiting && x in g && y in g[x] ensures e.Accounts(x, y) {
      assert d.Accounts(x, y);
    }
  }

  // The nodes that a root closes over are exactly the strongly connected component of the root.
  lemma ClosedGroupIsScc(g: Graph, d: Search, v: nat, base: set<nat>, x: nat)
    requires v in g && d.Inv(g) && d.Visiting(g, v, base, g[v])
    requires d.num[v] == d.born[v]
    ensures x in {v} + (d.waiting - base) <==> SameScc(g, v, x)
  {
    hide Reaches;
    CloseKeeps(g, d, v, base);
    ReachesSelf(g, v);
    if x in d.waiting - base {
      assert d.LeftBehind(g, v, x);
      assert d.HasAnchor(g, x);
      var p :| d.Anchors(g, x, p);
      ReachesTransitive(g, x, p, v);
    }
    if SameScc(g, v, x) {
      ReachesInside(g, d.Close(v, base).done, v, x);
      if x in d.done {
        ReachesInside(g, d.done, x, v);
      }
    }
  }

  // The visit of "v" under way since the search was at "d0", with the successors "seen" looked at.
  ghost predicate InVisit(g: Graph, d0: Search, d: Search, v: nat, seen: set<nat>) {
    && d0.Inv(g) && d.Inv(g) && d.Visiting(g, v, d0.waiting, seen) && d.Since(d0)
    && d.path == d0.path + {v} && v !in d0.num && d.born[v] == d0.time
  }

  lemma BeginVisit(g: Graph, d: Search, v: nat)
    requires d.Inv(g) && v in g && v !in d.num
    requires forall p :: p in d.path ==> Reaches(g, p, v)
    ensures InVisit(g, d, d.Enter(v), v, {})
  {
    EnterKeeps(g, d, v);
  }

  // The successor "y" had been numbered before ...
  lemma KnownSuccessor(g: Graph, d0: Search, d: Search, v: nat, seen: set<nat>, y: nat)
    requires InVisit(g, d0, d, v, seen) && v in g && y in g[v] && y in d.num
    ensures InVisit(g, d0, d.Lower(v, y), v, seen + {y})
  {
    hide Reaches;
    assert d.VisitingChild(g, v, d0.waiting, seen, y);
    LowerVisits(g, d, v, d0.waiting, seen, y);
    LowerKeeps(g, d, v, y);
  }

  // ... or has just been visited.
  lemma VisitedSuccessor(g: Graph, d0: Search, d: Search, e: Search, v: nat, seen: set<nat>, y: nat)
    requires InVisit(g, d0, d, v, seen) && v in g && y in g[v]
    requires e.Inv(g) && e.Returned(g, d, y)
    ensures y in e.num && InVisit(g, d0, e.Lower(v, y), v, seen + {y})
  {
    hide Reaches, Search.Anchored, Search.WaitingFinished, Search.DoneClosed, Search.LeftBehind, Search.LeftByChild, Search.Accounts;
    ChildReturned(g, d, e, v, d0.waiting, seen, y);
    LowerVisits(g, e, v, d0.waiting, seen, y);
    LowerKeeps(g, e, v, y);
  }

  lemma EndAsWaiting(g: Graph, d0: Search, d: Search, v: nat)
    requires v in g && InVisit(g, d0, d, v, g[v]) && d.num[v] < d.born[v]
    ensures d.Leave(v).Inv(g) && d.Leave(v).Returned(g, d0, v)
  {
    LeaveKeeps(g, d, v, d0.waiting);
    LeaveReturns(g, d0, d, v);
  }

  lemma EndAsRoot(g: Graph, d0: Search, d: Search, v: nat)
    requires v in g && InVisit(g, d0, d, v, g[v]) && d.num[v] == d.born[v]
    ensures d.Close(v, d0.waiting).Inv(g) && d.Close(v, d0.waiting).Returned(g, d0, v)
  {
    CloseKeeps(g, d, v, d0.waiting);
  }

  // The reported components, in the order in which they are reported.
  ghost predicate IsScc(g: Graph, group: set<nat>) {
    group != {} && forall m, x :: m in group ==> (x in group <==> SameScc(g, m, x))
  }

  ghost predicate ReverseTopological(g: Graph, groups: seq<set<nat>>) {
    forall i, m, y :: 0 <= i < |groups| && m in groups[i] && m in g && y in g[m] ==> InFirst(groups, i + 1, y)
  }

  ghost predicate InFirst(groups: seq<set<nat>>, n: nat, x: nat) {
    exists j :: 0 <= j < n && j < |groups| && x in groups[j]
  }

  // The components closed so far are exactly the done nodes.
  ghost predicate Reported(g: Graph, groups: seq<set<nat>>, done: set<nat>) {
    && (forall i :: 0 <= i < |groups| ==> IsScc(g, groups[i]))
    && (forall x :: x in done <==> InFirst(groups, |groups|, x))
    && ReverseTopological(g, groups)
  }

  lemma CloseReports(g: Graph, d0: Search, d: Search, v: nat, groups: seq<set<nat>>)
    requires v in g && InVisit(g, d0, d, v, g[v]) && d.num[v] == d.born[v]
    requires Reported(g, groups, d.done)
    ensures Reported(g, groups + [{v} + (d.waiting - d0.waiting)], d.Close(v, d0.waiting).done)
  {
    hide Reaches;
    var group := {v} + (d.waiting - d0.waiting);
    var groups' := groups + [group];
    var e := d.Close(v, d0.waiting);
    ClosedGroup(g, d0, d, v);
    CloseKeeps(g, d, v, d0.waiting);
    forall x ensures x in e.done <==> InFirst(groups', |groups'|, x) {
      AppendGroup(groups, group, x);
    }
    forall i, m, y | 0 <= i < |groups'| && m in groups'[i] && m in g && y in g[m] ensures InFirst(groups', i + 1, y) {
      if i < |groups| {
        assert groups'[i] == groups[i];
        assert InFirst(groups, i + 1, y);
        var j :| 0 <= j < i + 1 && j < |groups| && y in groups[j];
        assert groups'[j] == groups[j];
      } else {
        assert m in e.done && y in e.done;
        assert InFirst(groups', |groups'|, y);
      }
    }
  }

  lemma AppendGroup(groups: seq<set<nat>>, group: set<nat>, x: nat)
    ensures InFirst(groups + [group], |groups| + 1, x) <==> InFirst(groups, |groups|, x) || x in group
  {
    var groups' := groups + [group];
    assert groups'[|groups|] == group;
    if InFirst(groups, |groups|, x) {
      var j :| 0 <= j < |groups| && x in groups[j];
      assert groups'[j] == groups[j];
    }
  }

  lemma ClosedGroup(g: Graph, d0: Search, d: Search, v: nat)
    requires v in g && InVisit(g, d0, d, v, g[v]) && d.num[v] == d.born[v]
    ensures IsScc(g, {v} + (d.waiting - d0.waiting))
  {
    hide Reaches;
    var group := {v} + (d.waiting - d0.waiting);
    forall m, x | m in group ensures x in group <==> SameScc(g, m, x) {
      ClosedGroupIsScc(g, d, v, d0.waiting, m);
      ClosedGroupIsScc(g, d, v, d0.waiting, x);
      if x in group {
        ReachesTransitive(g, m, v, x);
        ReachesTransitive(g, x, v, m);
      }
      if SameScc(g, m, x) {
        ReachesTransitive(g, v, m, x);
        ReachesTransitive(g, x, m, v);
      }
    }
  }

  lemma InVisitFacts(g: Graph, d0: Search, d: Search, v: nat, seen: set<nat>)
    requires InVisit(g, d0, d, v, seen)
    ensures d.Inv(g) && v in d.num && v in d.born && v in d.path && v !in d.done && v in g
    ensures d.done <= d.num.Keys && d.num.Keys <= g.Keys
    ensures d.num[v] <= d.born[v] && d.born[v] == d0.time
    ensures d0.num.Keys <= d.num.Keys && d0.waiting <= d.waiting && d.path == d0.path + {v}
  {
  }

  lemma SuccessorReached(g: Graph, d0: Search, d: Search, v: nat, seen: set<nat>, y: nat)
    requires InVisit(g, d0, d, v, seen) && v in g && y in g[v]
    ensures y in g && forall p :: p in d.path ==> Reaches(g, p, y)
  {
    hide Reaches;
    assert Closed(g);
    ReachesEdge(g, v, y);
    forall p | p in d.path ensures Reaches(g, p, y) {
      ReachesTransitive(g, p, v, y);
    }
  }

  lemma ReturnedFacts(g: Graph, d: Search, e: Search, y: nat)
    requires e.Returned(g, d, y)
    ensures y in e.num && d.num.Keys <= e.num.Keys && e.path == d.path && d.done <= e.done
    ensures forall x :: x in d.num ==> e.num[x] == d.num[x]
  {
  }
}
