// Where the sequences of collectives part, some collective call depends on the condition: it is in
// the iterated post-dominance frontier of the call's block, or of the block of a call that leads
// there.
module Divergence {
  import opened Sequences
  import opened CollectiveLists
  import opened CollectiveRuns
  import opened CollectiveMeaning
  import opened CollectiveAnalysis
  import opened CallConditions
  import opened FrontierRange
  import T = CfgTraversal
  import P = PostDominance

  // The view shows function "f".
  ghost predicate Shows(p: Program, f: nat, v: View)
    requires f < |p.funcs|
  {
    && v.Valid() && v.numbers.Keys == Members(p.funcs[f]) && v.numbers.Keys <= p.succ.Keys
    && (forall k, j :: 0 < k < |v.names| && 0 < j < |v.names| && k < |v.cfg.pred| ==>
          (j in v.cfg.pred[k] <==> v.names[j] in p.succ[v.names[k]]))
    && (forall k :: 0 < k < |v.names| && k < |v.cfg.pred| ==> (0 in v.cfg.pred[k] <==> p.succ[v.names[k]] == []))
  }

  // A call of function "g".
  ghost predicate CallsFunction(p: Program, s: Site, g: nat) {
    && s.func < |p.funcs| && s.block in p.funcs[s.func] && s.block in p.code && s.index < |p.code[s.block]|
    && p.code[s.block][s.index].CallFunction? && g < |p.funcs| && p.code[s.block][s.index].entry in p.funcs[g]
  }

  ghost predicate IsSetup(p: Program, views: seq<View>, callers: map<nat, seq<Site>>) {
    && Valid(p) && |views| == |p.funcs|
    && (forall f {:trigger views[f]} :: 0 <= f < |views| ==> Shows(p, f, views[f]))
    && (forall g, s :: s in CallersOf(callers, g) <==> CallsFunction(p, s, g))
  }

  ghost function OwnList(p: Program, comm: Option<nat>, b: nat): seq<Element>
    requires Ranked(p) && b in p.succ
  {
    CodeList(p, comm, p.code[b], p.rank[b])
  }

  /* Inside one function. */

  // Nothing that "x" decides about issues a collective.
  ghost predicate Silent(p: Program, comm: Option<nat>, v: View, x: nat)
    requires Ranked(p) && x in v.numbers
  {
    forall y, w :: y in v.numbers && y in p.succ && Decides(v.cfg, v.tree, v.numbers[x], v.numbers[y], w) ==>
      OwnList(p, comm, y) == []
  }

  // The list where the ways out of "x" join.
  ghost function JoinList(p: Program, comm: Option<nat>, v: View, d: nat): seq<Element>
    requires Ranked(p)
  {
    if 0 < d < |v.names| && v.names[d] in p.succ then ListOf(p, comm, v.names[d]) else []
  }

  // A walk from "x" that has not come to where its ways join.
  ghost predicate BeforeJoin(v: View, x: nat, w: seq<nat>) {
    && x in v.numbers && IsWalk(v.cfg, w) && w[0] == v.numbers[x]
    && v.numbers[x] in v.tree.idom && v.tree.idom[v.numbers[x]] !in w[1..]
  }

  lemma WalkOn(v: View, x: nat, w: seq<nat>, k: nat)
    requires v.Valid() && BeforeJoin(v, x, w) && k in v.cfg.pred[w[|w| - 1]] && k != v.tree.idom[v.numbers[x]]
    ensures BeforeJoin(v, x, w + [k])
  {
    assert (w + [k])[1..] == w[1..] + [k];
    forall i, j | 0 <= i < j < |w + [k]| && j == i + 1 ensures (w + [k])[j] in v.cfg.pred[(w + [k])[i]] {
      if j < |w| {
        assert (w + [k])[i] == w[i] && (w + [k])[j] == w[j];
      }
    }
    assert k < |v.cfg.pred|;
  }

  // It has not left the function.
  lemma NotAtExit(v: View, x: nat, w: seq<nat>)
    requires v.Valid() && BeforeJoin(v, x, w)
    ensures w[|w| - 1] != 0
  {
    var d := v.tree.idom[v.numbers[x]];
    if w[|w| - 1] == 0 {
      assert |w| > 1;
      assert w[1..][|w| - 2] == 0;
      assert v.cfg.PathTo(0, [0]);
      JoinNotMetYet(v.cfg, v.tree, v.numbers[x], w);
      assert false;
    }
  }

  // A block that issues nothing itself has its successors' list, if that is free of marks.
  lemma SilentBlock(p: Program, comm: Option<nat>, b: nat)
    requires Ranked(p) && b in p.succ && OwnList(p, comm, b) == [] && NavsFree(ListOf(p, comm, b))
    ensures p.succ[b] == [] ==> ListOf(p, comm, b) == []
    ensures p.succ[b] != [] ==> p.succ[b][0] in p.succ && ListOf(p, comm, b) == ListOf(p, comm, p.succ[b][0])
  {
    ListUnfolds(p, comm, b);
    if p.succ[b] != [] {
      assert p.succ[b][0] in p.succ[b];
    }
    hide Ranked, CodeList, ListOf;
    assert ![Navs][0].Coll?;
  }

  lemma SilentOnTheWay(p: Program, comm: Option<nat>, f: nat, v: View, x: nat, w: seq<nat>)
    requires Ranked(p) && f < |p.funcs| && Shows(p, f, v) && BeforeJoin(v, x, w) && Silent(p, comm, v, x) && |w| >= 2
    requires w[|w| - 1] < |v.names| && v.names[w[|w| - 1]] in p.succ
    ensures var b := v.names[w[|w| - 1]]; b in v.numbers && v.numbers[b] == w[|w| - 1] && OwnList(p, comm, b) == []
  {
    hide Ranked, CodeList;
    NotAtExit(v, x, w);
    var b := v.names[w[|w| - 1]];
    assert v.numbers[b] == w[|w| - 1];
    assert Decides(v.cfg, v.tree, v.numbers[x], v.numbers[b], w);
  }

  // Until its ways join, a block that only decides about silent ones has the same list ahead.
  lemma {:induction false} ListAtJoin(p: Program, comm: Option<nat>, f: nat, v: View, x: nat, w: seq<nat>)
    requires Valid(p) && f < |p.funcs| && Shows(p, f, v) && BeforeJoin(v, x, w) && Silent(p, comm, v, x) && |w| >= 2
    requires w[|w| - 1] < |v.names| && v.names[w[|w| - 1]] in p.succ && NavsFree(ListOf(p, comm, v.names[w[|w| - 1]]))
    ensures ListOf(p, comm, v.names[w[|w| - 1]]) == JoinList(p, comm, v, v.tree.idom[v.numbers[x]])
    decreases p.rank[v.names[w[|w| - 1]]]
  {
    hide Ranked, T.Valid, NoDuplicates, BlockBefore, CodeList, ListOf;
    var d := v.tree.idom[v.numbers[x]];
    var b := v.names[w[|w| - 1]];
    SilentOnTheWay(p, comm, f, v, x, w);
    hide Silent, View.Valid;
    SilentBlock(p, comm, b);
    if p.succ[b] == [] {
      if d != 0 {
        LastIsAtExit(p, f, v, b);
        WalkOn(v, x, w, 0);
        NotAtExit(v, x, w + [0]);
      }
    } else {
      var next := p.succ[b][0];
      NextHasNumber(p, f, v, b, next);
      if v.numbers[next] != d {
        WalkOn(v, x, w, v.numbers[next]);
        ListAtJoin(p, comm, f, v, x, w + [v.numbers[next]]);
      }
    }
  }

  lemma LastIsAtExit(p: Program, f: nat, v: View, b: nat)
    requires f < |p.funcs| && Shows(p, f, v) && b in v.numbers && p.succ[b] == []
    ensures v.numbers[b] < |v.cfg.pred| && 0 in v.cfg.pred[v.numbers[b]]
  {
  }

  lemma NextHasNumber(p: Program, f: nat, v: View, b: nat, next: nat)
    requires Valid(p) && f < |p.funcs| && Shows(p, f, v) && b in v.numbers && next in p.succ[b]
    ensures next in p.succ && 0 <= p.rank[next] < p.rank[b]
    ensures next in v.numbers && v.numbers[b] < |v.cfg.pred| && v.numbers[next] in v.cfg.pred[v.numbers[b]]
    ensures 0 < v.numbers[next] < |v.names| && v.names[v.numbers[next]] == next
  {
    assert b in p.funcs[f];
    assert T.Valid(CfgOf(p, f));
    assert next in p.funcs[f];
  }

  lemma StartOfWalk(v: View, x: nat)
    requires v.Valid() && x in v.numbers
    ensures BeforeJoin(v, x, [v.numbers[x]])
  {
    assert [v.numbers[x]][1..] == [];
  }

  // A successor's list is the one at the join, if nothing on the way issues a collective.
  lemma SuccessorAtJoin(p: Program, comm: Option<nat>, f: nat, v: View, x: nat, next: nat)
    requires Valid(p) && f < |p.funcs| && Shows(p, f, v) && x in v.numbers && Silent(p, comm, v, x)
    requires next in p.succ[x] && next in p.succ && NavsFree(ListOf(p, comm, next))
    ensures v.numbers[x] in v.tree.idom
    ensures ListOf(p, comm, next) == JoinList(p, comm, v, v.tree.idom[v.numbers[x]])
  {
    hide CodeList, ListOf, Ranked, IsWalk, T.Valid, NoDuplicates, Silent, BlockBefore;
    NextHasNumber(p, f, v, x, next);
    StartOfWalk(v, x);
    var k, d := v.numbers[next], v.tree.idom[v.numbers[x]];
    if k != d {
      hide View.Valid;
      WalkOn(v, x, [v.numbers[x]], k);
      ListAtJoin(p, comm, f, v, x, [v.numbers[x]] + [k]);
    }
  }

  lemma SilentDoesNotPart(p: Program, comm: Option<nat>, f: nat, v: View, x: nat)
    requires Valid(p) && f < |p.funcs| && Shows(p, f, v) && x in v.numbers && Silent(p, comm, v, x)
    ensures !Parts(p, comm, x)
  {
    StartOfWalk(v, x);
    hide T.Valid, NoDuplicates, BlockBefore, ListOf, Silent, Shows, JoinList;
    if Parts(p, comm, x) {
      var ls := NeighbourLists(p, comm, x);
      forall i | 0 <= i < |ls| ensures ls[i] == JoinList(p, comm, v, v.tree.idom[v.numbers[x]]) {
        assert p.succ[x][i] in p.succ[x];
        SuccessorAtJoin(p, comm, f, v, x, p.succ[x][i]);
      }
    }
  }

  // Where the sequences part, the block decides about one that issues a collective or calls a
  // function that does.
  lemma PartingDecides(p: Program, comm: Option<nat>, f: nat, v: View, x: nat) returns (y: nat, w: seq<nat>)
    requires Valid(p) && f < |p.funcs| && Shows(p, f, v) && x in v.numbers && Parts(p, comm, x)
    ensures y in v.numbers && y in p.succ && Decides(v.cfg, v.tree, v.numbers[x], v.numbers[y], w)
    ensures OwnList(p, comm, y) != []
  {
    hide T.Valid, NoDuplicates, BlockBefore, ListOf, CodeList, Decides, Shows, JoinList;
    if Silent(p, comm, v, x) {
      SilentDoesNotPart(p, comm, f, v, x);
    }
    y, w :| y in v.numbers && y in p.succ && Decides(v.cfg, v.tree, v.numbers[x], v.numbers[y], w) && OwnList(p, comm, y) != [];
  }

  // Ranks go down along a walk.
  lemma {:induction false} WalkDescends(p: Program, f: nat, v: View, w: seq<nat>)
    requires Valid(p) && f < |p.funcs| && Shows(p, f, v) && IsWalk(v.cfg, w) && |w| >= 2 && w[|w| - 1] != 0
    ensures 0 < w[0] < |v.names| && w[|w| - 1] < |v.names| && v.names[w[0]] in p.rank && v.names[w[|w| - 1]] in p.rank
    ensures p.rank[v.names[w[|w| - 1]]] < p.rank[v.names[w[0]]]
    decreases |w|
  {
    var n := |w| - 1;
    assert w[n] in v.cfg.pred[w[n - 1]];
    assert v.cfg.pred[0] == [];
    NextHasNumber(p, f, v, v.names[w[n - 1]], v.names[w[n]]);
    if n > 1 {
      PrefixIsWalk(v.cfg, w, n);
      WalkDescends(p, f, v, w[..n]);
    }
  }

  // So the block is in the iterated frontier of that one.
  lemma DecidingControls(p: Program, f: nat, v: View, x: nat, y: nat, w: seq<nat>)
    requires Valid(p) && f < |p.funcs| && Shows(p, f, v) && x in v.numbers && y in v.numbers
    requires Decides(v.cfg, v.tree, v.numbers[x], v.numbers[y], w)
    ensures Controls(v, y, x)
  {
    var k, b := v.numbers[x], v.numbers[y];
    WalkDescends(p, f, v, w);
    forall s: set<nat> | P.ClosedFrom(v.cfg, b, s) ensures k in s {
      DecidingIsInFrontier(v.cfg, v.tree, k, b, w, s);
    }
    assert InIpdf(v.cfg, b, k);
    assert k in Ipdf(v.cfg, b);
  }

  /* From a block that issues a collective to the call. */

  ghost predicate IsCollectiveCall(p: Program, comm: Option<nat>, s: Site) {
    && s.func < |p.funcs| && s.block in p.funcs[s.func] && s.block in p.code && s.index < |p.code[s.block]|
    && p.code[s.block][s.index].CallCollective? && !ShouldIgnore(p.code[s.block][s.index], comm)
  }

  // One of the calls contributes something.
  lemma {:induction false} Contributes(p: Program, comm: Option<nat>, code: seq<Instr>, limit: nat) returns (k: nat)
    requires Ranked(p)
    requires forall i :: i in code && i.CallFunction? && i.entry in p.succ ==> p.rank[i.entry] < limit
    requires CodeList(p, comm, code, limit) != []
    ensures k < |code| && InstrList(p, comm, code[k], limit) != []
    decreases |code|
  {
    hide Ranked, ListOf;
    var n := |code| - 1;
    if InstrList(p, comm, code[n], limit) != [] {
      k := n;
    } else {
      k := Contributes(p, comm, code[..n], limit);
    }
  }

  // What contributes is a collective that counts, or a call of a function whose list is not empty.
  lemma ContributingSite(p: Program, comm: Option<nat>, f: nat, y: nat, k: nat) returns (g: nat)
    requires Valid(p) && f < |p.funcs| && y in p.funcs[f] && y in p.succ && k < |p.code[y]| && p.code[y][k] in p.code[y]
    requires InstrList(p, comm, p.code[y][k], p.rank[y]) != []
    ensures !p.code[y][k].CallFunction? ==> IsCollectiveCall(p, comm, Site(f, y, k))
    ensures p.code[y][k].CallFunction? ==>
      && CallsFunction(p, Site(f, y, k), g) && p.code[y][k].entry in p.succ
      && 0 <= p.rank[p.code[y][k].entry] < p.rank[y] && ListOf(p, comm, p.code[y][k].entry) != []
  {
    hide T.Valid, NoDuplicates, ListOf;
    g := 0;
    if p.code[y][k].CallFunction? {
      assert BlockBefore(p, |p.funcs|, p.code[y][k].entry);
      g :| g < |p.funcs| && p.code[y][k].entry in p.funcs[g];
    }
  }

  lemma {:induction false} CallInBlock(p: Program, comm: Option<nat>, callers: map<nat, seq<Site>>, f: nat, y: nat) returns (call: Site, s: Site)
    requires Valid(p) && f < |p.funcs| && y in p.funcs[f] && y in p.succ && OwnList(p, comm, y) != []
    requires forall g, s :: s in CallersOf(callers, g) <==> CallsFunction(p, s, g)
    ensures IsCollectiveCall(p, comm, call) && CallsLead(callers, call, s) && s.func == f && s.block == y
    decreases p.rank[y], 0
  {
    hide T.Valid, NoDuplicates, BlockBefore, ListOf, CodeList, InstrList, CallsLead, IsCollectiveCall, CallersOf;
    var k := Contributes(p, comm, p.code[y], p.rank[y]);
    s := Site(f, y, k);
    var g := ContributingSite(p, comm, f, y, k);
    hide Ranked;
    if p.code[y][k].CallFunction? {
      var inner: Site;
      call, inner := CallBelow(p, comm, callers, g, p.code[y][k].entry);
      LeadsOnward(callers, call, inner, s);
    } else {
      call := s;
      LeadsToItself(callers, s);
    }
  }

  lemma {:induction false} CallBelow(p: Program, comm: Option<nat>, callers: map<nat, seq<Site>>, f: nat, b: nat) returns (call: Site, s: Site)
    requires Valid(p) && f < |p.funcs| && b in p.funcs[f] && b in p.succ && ListOf(p, comm, b) != []
    requires forall g, s :: s in CallersOf(callers, g) <==> CallsFunction(p, s, g)
    ensures IsCollectiveCall(p, comm, call) && CallsLead(callers, call, s) && s.func == f
    decreases p.rank[b], 1
  {
    var ls := NeighbourLists(p, comm, b);
    ListUnfolds(p, comm, b);
    if OwnList(p, comm, b) != [] {
      call, s := CallInBlock(p, comm, callers, f, b);
    } else {
      var i :| 0 <= i < |ls| && ls[i] != [];
      assert p.succ[b][i] in p.succ[b];
      assert T.Valid(CfgOf(p, f));
      call, s := CallBelow(p, comm, callers, f, p.succ[b][i]);
    }
  }

  // The theorem: if the sequences from a block differ, it leads to a block where they part, whose
  // list is nothing but the mark, and some collective call depends on that block's condition.
  lemma DifferenceIsCovered(p: Program, comm: Option<nat>, views: seq<View>, callers: map<nat, seq<Site>>, b: nat)
    returns (way: seq<nat>, call: Site)
    requires IsSetup(p, views, callers) && b in p.succ && Differ(Runs(p, comm, b))
    ensures LeadsToMark(p, comm, way) && way[0] == b
    ensures IsCollectiveCall(p, comm, call) && DependsOn(views, callers, call, way[|way| - 1])
  {
    DifferenceIsMarkedAhead(p, comm, b);
    way :| LeadsToMark(p, comm, way) && way[0] == b;
    var x := way[|way| - 1];
    assert BlockBefore(p, |p.funcs|, x);
    var f: nat :| f < |p.funcs| && x in p.funcs[f];
    var v := views[f];
    assert Shows(p, f, v);
    hide Valid, Parts, Runs, ListOf, CodeList;
    var y, w := PartingDecides(p, comm, f, v, x);
    DecidingControls(p, f, v, x, y, w);
    var s;
    call, s := CallInBlock(p, comm, callers, f, y);
    assert ControlsSite(views, s, x);
  }
}
