// The conditions a call depends on: the iterated post-dominance frontier of its block, those of the
// blocks its function is called from, and so on towards the entry of the program.
module CallConditions {
  import opened Sequences
  import opened Dominance
  import opened PostDominance

  // A call: its function, block, and place in the block.
  datatype Site = Site(func: nat, block: nat, index: nat)

  // A function as post-dominance sees it. Block "names[k]" has the number k; 0 is the virtual exit.
  datatype View = View(cfg: Cfg, tree: Tree, names: seq<nat>, numbers: map<nat, nat>) {
    ghost predicate Valid() {
      && IsTree(cfg, tree) && |names| == |cfg.succ|
      && (forall b :: b in numbers ==> 0 < numbers[b] < |names| && names[numbers[b]] == b)
      && (forall k :: 0 < k < |names| ==> names[k] in numbers && numbers[names[k]] == k)
    }
  }

  // In the iterated frontier.
  ghost predicate InIpdf(c: Cfg, b: nat, x: nat) {
    forall s: set<nat> :: ClosedFrom(c, b, s) ==> x in s
  }

  ghost function Ipdf(c: Cfg, b: nat): set<nat> {
    set x | 0 <= x < |c.succ| && InIpdf(c, b, x)
  }

  predicate IsBlock(c: Cfg, x: nat) {
    0 < x < |c.succ|
  }

  // The virtual exit is in no frontier.
  lemma ClosedOverBlocks(c: Cfg, b: nat) returns (all: set<nat>)
    requires c.Valid()
    ensures ClosedFrom(c, b, all) && forall x :: x in all ==> IsBlock(c, x)
  {
    all := set x | 0 <= x < |c.succ| && IsBlock(c, x);
    assert c.pred[0] == [];
  }

  lemma IteratedIsIpdf(c: Cfg, b: nat, s: set<nat>)
    requires c.Valid() && IsIteratedPdf(c, b, s)
    ensures s == Ipdf(c, b) && forall x :: x in s ==> IsBlock(c, x)
  {
    var all := ClosedOverBlocks(c, b);
  }

  lemma ControlsIsBlock(v: View, b: nat, x: nat)
    requires v.Valid() && Controls(v, b, x)
    ensures x in v.numbers
  {
    var k :| k in Ipdf(v.cfg, v.numbers[b]) && k < |v.names| && v.names[k] == x;
    var all := ClosedOverBlocks(v.cfg, v.numbers[b]);
    assert InIpdf(v.cfg, v.numbers[b], k);
  }

  // Block "x" decides about block "b".
  ghost predicate Controls(v: View, b: nat, x: nat) {
    b in v.numbers && exists k :: k in Ipdf(v.cfg, v.numbers[b]) && k < |v.names| && v.names[k] == x
  }

  function CallersOf(callers: map<nat, seq<Site>>, f: nat): (sites: seq<Site>)
    ensures forall s :: s in sites <==> f in callers && s in callers[f]
  {
    if f in callers then callers[f] else []
  }

  // From a call to a call of its function, and so on.
  ghost predicate IsChain(callers: map<nat, seq<Site>>, chain: seq<Site>) {
    chain != [] && forall i, j :: 0 <= i < j < |chain| && j == i + 1 ==> chain[j] in CallersOf(callers, chain[i].func)
  }

  ghost predicate CallsLead(callers: map<nat, seq<Site>>, call: Site, s: Site) {
    exists chain :: IsChain(callers, chain) && chain[0] == call && chain[|chain| - 1] == s
  }

  ghost predicate ControlsSite(views: seq<View>, s: Site, x: nat) {
    s.func < |views| && Controls(views[s.func], s.block, x)
  }

  // The call depends on the condition of block "x".
  ghost predicate DependsOn(views: seq<View>, callers: map<nat, seq<Site>>, call: Site, x: nat) {
    exists s :: CallsLead(callers, call, s) && ControlsSite(views, s, x)
  }

  ghost predicate SiteOk(views: seq<View>, s: Site) {
    s.func < |views| && s.block in views[s.func].numbers
  }

  // One object for the frontiers of each function.
  ghost predicate Prepared(views: seq<View>, pdts: seq<Frontiers>)
    reads pdts
  {
    && |pdts| == |views|
    && forall f :: 0 <= f < |views| ==> views[f].Valid() && pdts[f].Valid() && pdts[f].c == views[f].cfg
  }

  // The blocks that decide about one block.
  method BlockIpdf(views: seq<View>, pdts: seq<Frontiers>, s: Site) returns (r: set<nat>)
    requires Prepared(views, pdts) && SiteOk(views, s)
    modifies pdts
    ensures Prepared(views, pdts)
    ensures forall x :: x in r <==> ControlsSite(views, s, x)
  {
    var v := views[s.func];
    hide ClosedFrom, IsTree;
    var found := pdts[s.func].IteratedFrontier(v.numbers[s.block]);
    assert v.cfg.Valid() by {
      TreeIsOfCfg(v);
    }
    IteratedIsIpdf(v.cfg, v.numbers[s.block], Members(found));
    assert forall k :: k in found <==> k in Members(found);
    assert forall k :: k in found ==> IsBlock(v.cfg, k);
    r := set k | k in found :: v.names[k];
  }

  lemma TreeIsOfCfg(v: View)
    requires v.Valid()
    ensures v.cfg.Valid()
  {
  }

  // Where the first call stands in the queue that has not been visited.
  function FirstNew(queue: seq<Site>, visited: set<Site>): (i: nat)
    ensures i <= |queue|
  {
    if queue == [] || queue[0] !in visited then 0 else 1 + FirstNew(queue[1..], visited)
  }

  lemma {:induction false} NewAtTheEnd(queue: seq<Site>, more: seq<Site>, visited: set<Site>)
    requires forall s :: s in more ==> s !in visited
    ensures FirstNew(queue + more, visited) == FirstNew(queue, visited)
  {
    if queue == [] {
      assert queue + more == more;
    } else if queue[0] in visited {
      NewAtTheEnd(queue[1..], more, visited);
      assert (queue + more)[1..] == queue[1..] + more;
    }
  }

  lemma LeadsToItself(callers: map<nat, seq<Site>>, call: Site)
    ensures CallsLead(callers, call, call)
  {
    assert IsChain(callers, [call]);
  }

  lemma LeadsOnward(callers: map<nat, seq<Site>>, call: Site, s: Site, t: Site)
    requires CallsLead(callers, call, s) && t in CallersOf(callers, s.func)
    ensures CallsLead(callers, call, t)
  {
    var chain :| IsChain(callers, chain) && chain[0] == call && chain[|chain| - 1] == s;
    var longer := chain + [t];
    forall i, j | 0 <= i < j < |longer| && j == i + 1 ensures longer[j] in CallersOf(callers, longer[i].func) {
      if j < |chain| {
        assert longer[i] == chain[i] && longer[j] == chain[j];
      }
    }
    assert IsChain(callers, longer) && longer[|longer| - 1] == t;
  }

  // A set of calls that holds the callers of its members holds whatever chains lead to.
  lemma {:induction false} ChainStaysInside(callers: map<nat, seq<Site>>, chain: seq<Site>, visited: set<Site>)
    requires IsChain(callers, chain) && chain[0] in visited
    requires forall s, t :: s in visited && t in CallersOf(callers, s.func) ==> t in visited
    ensures chain[|chain| - 1] in visited
  {
    if |chain| > 1 {
      var init := chain[..|chain| - 1];
      assert forall i :: 0 <= i < |init| ==> init[i] == chain[i];
      ChainStaysInside(callers, init, visited);
      assert chain[|chain| - 1] in CallersOf(callers, chain[|chain| - 2].func);
    }
  }

  // Calls visited have been accounted for, and their callers visited or queued.
  ghost predicate Accounted(views: seq<View>, callers: map<nat, seq<Site>>, visited: set<Site>, queue: seq<Site>, ipdf: set<nat>) {
    && (forall s, x :: s in visited && ControlsSite(views, s, x) ==> x in ipdf)
    && (forall s, t :: s in visited && t in CallersOf(callers, s.func) ==> t in visited || t in queue)
  }

  ghost predicate Justified(views: seq<View>, callers: map<nat, seq<Site>>, call: Site, visited: set<Site>, queue: seq<Site>,
                            ipdf: set<nat>) {
    && (forall s :: s in visited || s in queue ==> SiteOk(views, s) && CallsLead(callers, call, s))
    && (forall x :: x in ipdf ==> DependsOn(views, callers, call, x))
    && (call in visited || call in queue)
  }

  // The calls that have not been visited among those that call the function.
  method NewCallers(callers: map<nat, seq<Site>>, f: nat, visited: set<Site>) returns (more: seq<Site>)
    ensures forall t :: t in more <==> t in CallersOf(callers, f) && t !in visited
  {
    more := [];
    var sites := CallersOf(callers, f);
    for i := 0 to |sites|
      invariant forall t :: t in more <==> t in sites[..i] && t !in visited
    {
      assert sites[..i + 1] == sites[..i] + [sites[i]];
      if sites[i] !in visited {
        more := more + [sites[i]];
      }
    }
    assert sites[..|sites|] == sites;
  }

  ghost function AllSites(callers: map<nat, seq<Site>>, call: Site): (all: set<Site>)
    ensures call in all && forall f, t :: t in CallersOf(callers, f) ==> t in all
  {
    {call} + set f, t | f in callers && t in callers[f] :: t
  }

  // The calls are visited from a queue in which one may stand several times; functions may call
  // themselves.
  method CallInterIpdf(views: seq<View>, pdts: seq<Frontiers>, callers: map<nat, seq<Site>>, call: Site) returns (ipdf: set<nat>)
    requires Prepared(views, pdts) && SiteOk(views, call)
    requires forall f, s :: s in CallersOf(callers, f) ==> SiteOk(views, s)
    modifies pdts
    ensures Prepared(views, pdts)
    ensures forall x :: x in ipdf <==> DependsOn(views, callers, call, x)
  {
    hide Prepared, DependsOn, ControlsSite, CallsLead, CallersOf, AllSites, SiteOk;
    ipdf := {};
    var visited, queue: seq<Site> := {}, [call];
    LeadsToItself(callers, call);
    while queue != []
      invariant Prepared(views, pdts)
      invariant Accounted(views, callers, visited, queue, ipdf)
      invariant Justified(views, callers, call, visited, queue, ipdf)
      invariant forall s :: s in queue ==> s in AllSites(callers, call)
      decreases AllSites(callers, call) - visited, FirstNew(queue, visited)
    {
      ghost var before, ipdf0, queue0 := visited, ipdf, queue;
      var s := queue[0];
      visited := visited + {s};
      var here := BlockIpdf(views, pdts, s);
      ipdf := ipdf + here;
      var more := NewCallers(callers, s.func, visited);
      queue := queue[1..] + more;
      VisitStep(views, callers, call, before, queue0, ipdf0, here, more);
      NewAtTheEnd(queue0[1..], more, visited);
      if s in before {
        assert visited == before;
      }
    }
    EverythingFound(views, callers, call, visited, ipdf);
  }

  lemma VisitStep(views: seq<View>, callers: map<nat, seq<Site>>, call: Site, visited: set<Site>, queue: seq<Site>,
                  ipdf: set<nat>, here: set<nat>, more: seq<Site>)
    requires queue != [] && forall f, s :: s in CallersOf(callers, f) ==> SiteOk(views, s)
    requires Accounted(views, callers, visited, queue, ipdf) && Justified(views, callers, call, visited, queue, ipdf)
    requires forall x :: x in here <==> ControlsSite(views, queue[0], x)
    requires forall t :: t in more <==> t in CallersOf(callers, queue[0].func) && t !in visited + {queue[0]}
    ensures Accounted(views, callers, visited + {queue[0]}, queue[1..] + more, ipdf + here)
    ensures Justified(views, callers, call, visited + {queue[0]}, queue[1..] + more, ipdf + here)
  {
    hide ControlsSite, CallsLead, CallersOf, SiteOk;
    var s := queue[0];
    assert forall t :: t in queue ==> t == s || t in queue[1..];
    forall t | t in more ensures CallsLead(callers, call, t) {
      LeadsOnward(callers, call, s, t);
    }
  }

  lemma EverythingFound(views: seq<View>, callers: map<nat, seq<Site>>, call: Site, visited: set<Site>, ipdf: set<nat>)
    requires Accounted(views, callers, visited, [], ipdf) && Justified(views, callers, call, visited, [], ipdf)
    ensures forall x :: x in ipdf <==> DependsOn(views, callers, call, x)
  {
    hide ControlsSite, CallersOf;
    forall x | DependsOn(views, callers, call, x) ensures x in ipdf {
      var s :| CallsLead(callers, call, s) && ControlsSite(views, s, x);
      var chain :| IsChain(callers, chain) && chain[0] == call && chain[|chain| - 1] == s;
      ChainStaysInside(callers, chain, visited);
    }
  }
}
