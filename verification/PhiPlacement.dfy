// Phi placement: for every region, one phi in every block of the iterated dominance frontier of
// the blocks that define it.
module PhiPlacement {
  import opened Sequences
  import opened Dominance
  import opened MemorySsaSpec

  type Frontiers = map<nat, set<nat>>

  // "s" is closed under the frontiers of the defining blocks and of its own.
  ghost predicate ClosedUnder(df: Frontiers, defs: set<nat>, s: set<nat>) {
    forall x :: x in df && (x in defs || x in s) ==> df[x] <= s
  }

  // The iterated frontier: the least closed set.
  ghost predicate IsIterated(df: Frontiers, defs: set<nat>, s: set<nat>) {
    ClosedUnder(df, defs, s) && forall t :: ClosedUnder(df, defs, t) ==> s <= t
  }

  // The blocks whose list holds "r".
  ghost function BlocksWith(lists: seq<seq<nat>>, r: nat): set<nat> {
    set b | 0 <= b < |lists| && r in lists[b]
  }

  ghost predicate WellFormedInput(df: Frontiers, n: nat, defs: set<nat>) {
    && (forall x: nat :: x in df <==> x < n)
    && (forall x, y :: x in df && y in df[x] ==> y < n)
    && (forall x :: x in defs ==> x < n)
  }

  // The lists after a phi for "r" has been added to each block of "plus".
  ghost predicate Extended(lists0: seq<seq<nat>>, lists: seq<seq<nat>>, plus: set<nat>, r: nat) {
    && |lists| == |lists0|
    && (forall b :: 0 <= b < |lists| ==> lists[b] == if b in plus then lists0[b] + [r] else lists0[b])
  }

  // The frontier of one popped block: a block seen for the first time gets a phi, and is queued
  // unless it has been queued before.
  method VisitFrontier(frontier: set<nat>, r: nat, plus: set<nat>, work: set<nat>, worklist: seq<nat>,
                       lists: seq<seq<nat>>, ghost lists0: seq<seq<nat>>)
    returns (plus': set<nat>, work': set<nat>, worklist': seq<nat>, lists': seq<seq<nat>>)
    requires Extended(lists0, lists, plus, r) && forall x :: x in frontier ==> x < |lists|
    ensures plus' == plus + frontier
    ensures Extended(lists0, lists', plus', r)
    ensures work' == work + (frontier - plus)
    ensures forall x :: x in worklist' <==> x in worklist || (x in frontier - plus && x !in work)
    ensures work' == work ==> worklist' == worklist
  {
    plus', work', worklist', lists' := plus, work, worklist, lists;
    var todo := frontier;
    while todo != {}
      invariant todo <= frontier
      invariant plus' == plus + (frontier - todo)
      invariant Extended(lists0, lists', plus', r)
      invariant work' == work + ((frontier - todo) - plus)
      invariant forall x :: x in worklist' <==> x in worklist || (x in (frontier - todo) - plus && x !in work)
      invariant work' == work ==> worklist' == worklist
    {
      var y :| y in todo;
      todo := todo - {y};
      if y !in plus' {
        lists' := lists'[y := lists'[y] + [r]];
        plus' := plus' + {y};
        if y !in work' {
          work' := work' + {y};
          worklist' := worklist' + [y];
        }
      }
    }
  }

  // The worklist for one region.
  method PlaceRegion(df: Frontiers, defs: set<nat>, r: nat, lists0: seq<seq<nat>>) returns (lists: seq<seq<nat>>)
    requires WellFormedInput(df, |lists0|, defs)
    requires forall b :: 0 <= b < |lists0| ==> r !in lists0[b]
    ensures |lists| == |lists0| && IsIterated(df, defs, BlocksWith(lists, r))
    ensures Extended(lists0, lists, BlocksWith(lists, r), r)
  {
    hide ClosedUnder, Extended;
    lists := lists0;
    NothingPlaced(lists0, r);
    var worklist: seq<nat> := ToSeq(defs);
    var plus: set<nat> := {};
    var work := defs;
    while worklist != []
      invariant plus <= df.Keys && work == defs + plus && Extended(lists0, lists, plus, r)
      invariant forall x :: x in worklist ==> x in work
      invariant forall x :: x in work && x !in worklist ==> df[x] <= plus
      invariant forall t :: ClosedUnder(df, defs, t) ==> plus <= t
      decreases df.Keys - work, |worklist|
    {
      var x := worklist[|worklist| - 1];
      ghost var before := worklist;
      worklist := worklist[..|worklist| - 1];
      assert forall z :: z in before ==> z == x || z in worklist;
      assert x in before;
      ghost var plus0 := plus;
      ExtendedSize(lists0, lists, plus, r);
      plus, work, worklist, lists := VisitFrontier(df[x], r, plus, work, worklist, lists, lists0);
      FrontierInside(df, defs, plus0, x);
    }
    PlacedBlocks(lists0, lists, plus, r);
    FixpointIsClosed(df, defs, plus);
  }

  lemma NothingPlaced(lists: seq<seq<nat>>, r: nat)
    ensures Extended(lists, lists, {}, r)
  {
  }

  lemma ExtendedSize(lists0: seq<seq<nat>>, lists: seq<seq<nat>>, plus: set<nat>, r: nat)
    requires Extended(lists0, lists, plus, r)
    ensures |lists| == |lists0|
  {
  }

  lemma FixpointIsClosed(df: Frontiers, defs: set<nat>, plus: set<nat>)
    requires forall x :: x in defs + plus ==> x in df && df[x] <= plus
    ensures ClosedUnder(df, defs, plus)
  {
  }

  // What a closed set holds when it holds what has been found so far.
  lemma FrontierInside(df: Frontiers, defs: set<nat>, plus: set<nat>, x: nat)
    requires x in df && x in defs + plus
    requires forall t :: ClosedUnder(df, defs, t) ==> plus <= t
    ensures forall t :: ClosedUnder(df, defs, t) ==> plus + df[x] <= t
  {
  }

  lemma PlacedBlocks(lists0: seq<seq<nat>>, lists: seq<seq<nat>>, plus: set<nat>, r: nat)
    requires Extended(lists0, lists, plus, r) && forall b :: 0 <= b < |lists0| ==> r !in lists0[b]
    requires forall b :: b in plus ==> b < |lists0|
    ensures |lists| == |lists0| && BlocksWith(lists, r) == plus
  {
    forall b | 0 <= b < |lists| ensures r in lists[b] <==> b in plus {
      if b in plus {
        assert lists[b][|lists0[b]|] == r;
      }
    }
  }

  // computePhi: for every used region in turn.
  method ComputePhi(df: Frontiers, regions: set<nat>, defs: map<nat, set<nat>>, n: nat) returns (lists: seq<seq<nat>>)
    requires forall r :: r in regions ==> r in defs && WellFormedInput(df, n, defs[r])
    ensures |lists| == n
    ensures forall b :: 0 <= b < n ==> NoDuplicates(lists[b]) && forall r :: r in lists[b] ==> r in regions
    ensures forall r :: r in regions ==> IsIterated(df, defs[r], BlocksWith(lists, r))
  {
    lists := seq(n, i => []);
    var todo := regions;
    while todo != {}
      invariant todo <= regions && |lists| == n
      invariant forall b :: 0 <= b < n ==> NoDuplicates(lists[b]) && forall r :: r in lists[b] ==> r in regions && r !in todo
      invariant forall r :: r in regions && r !in todo ==> IsIterated(df, defs[r], BlocksWith(lists, r))
    {
      var r :| r in todo;
      todo := todo - {r};
      ghost var lists0 := lists;
      lists := PlaceRegion(df, defs[r], r, lists);
      forall q | q != r ensures BlocksWith(lists, q) == BlocksWith(lists0, q) {
        OtherBlocks(lists0, lists, BlocksWith(lists, r), r, q);
      }
    }
  }

  lemma OtherBlocks(lists0: seq<seq<nat>>, lists: seq<seq<nat>>, plus: set<nat>, r: nat, q: nat)
    requires Extended(lists0, lists, plus, r) && q != r
    ensures BlocksWith(lists, q) == BlocksWith(lists0, q)
  {
  }

  // The phi placement of "lists", by region.
  ghost function PhisOf(lists: seq<seq<nat>>, regions: set<nat>): Phis {
    map r | r in regions :: BlocksWith(lists, r)
  }

  // With frontiers and defining blocks as defined, the placement is closed in the sense that
  // renaming needs.
  lemma PlacementIsClosed(f: Fun, df: Frontiers, defs: map<nat, set<nat>>, lists: seq<seq<nat>>)
    requires |lists| == |f.body| == |f.cfg.pred|
    requires forall x: nat, y: nat :: x < |f.body| && y < |f.cfg.pred| && f.cfg.InFrontier(x, y) ==> x in df && y in df[x]
    requires forall r, b: nat :: r in f.regions && f.Defines(b, r) ==> r in defs && b in defs[r]
    requires forall r :: r in f.regions ==> r in defs && IsIterated(df, defs[r], BlocksWith(lists, r))
    ensures PhisClosed(f, PhisOf(lists, f.regions))
  {
    var phis := PhisOf(lists, f.regions);
    forall r: nat, x: nat, y: nat |
      && r in f.regions && x < |f.body| && y < |f.cfg.pred|
      && (f.Defines(x, r) || HasPhi(phis, x, r)) && f.cfg.InFrontier(x, y)
      ensures HasPhi(phis, y, r)
    {
      assert ClosedUnder(df, defs[r], BlocksWith(lists, r));
    }
  }
}
