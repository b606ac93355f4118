// Memory SSA of one function, from phi placement to the versions recorded on every path.
module MemorySsa {
  import opened Sequences
  import opened Dominance
  import opened MemorySsaSpec
  import opened PhiPlacement
  import opened Renaming

  // Along every path from the entry to an access, the version recorded at the access is the one
  // defined last on the path.
  ghost predicate UsesLastDef(f: Fun, phis: Phis, vars: map<Site, Var>, uses: map<(nat, nat), Var>)
    requires f.Valid()
  {
    forall p, i: nat :: f.cfg.IsPath(p) && i < |f.body[p[|p| - 1]]| ==> UseIsLastDef(f, phis, vars, uses, p, i)
  }

  ghost predicate UseIsLastDef(f: Fun, phis: Phis, vars: map<Site, Var>, uses: map<(nat, nat), Var>, p: seq<nat>, i: nat)
    requires f.Valid() && f.cfg.IsPath(p) && i < |f.body[p[|p| - 1]]|
  {
    var b := p[|p| - 1];
    var s := PathDef(f, phis, p, i, f.body[b][i].region);
    (b, i) in uses && s in vars && uses[(b, i)] == vars[s]
  }

  // Along every path that continues over an edge into a block with a phi, the operand of that
  // edge is the version defined last before the edge.
  ghost predicate OperandsLastDef(f: Fun, phis: Phis, vars: map<Site, Var>, ops: map<(nat, nat, nat), Var>)
    requires f.Valid()
  {
    forall p, y, r :: f.cfg.IsPath(p) && y in f.cfg.succ[p[|p| - 1]] && r in f.regions && HasPhi(phis, y, r) ==>
      OperandIsLastDef(f, phis, vars, ops, p, y, r)
  }

  ghost predicate OperandIsLastDef(f: Fun, phis: Phis, vars: map<Site, Var>, ops: map<(nat, nat, nat), Var>, p: seq<nat>, y: nat, r: nat)
    requires f.Valid() && f.cfg.IsPath(p)
  {
    y < |f.cfg.pred| &&
    var x := p[|p| - 1];
    var k := (y, r, WhichPred(f.cfg, x, y));
    var s := PathDef(f, phis, p, |f.body[x]|, r);
    k in ops && s in vars && ops[k] == vars[s]
  }

  // No two definitions of a region share a version.
  ghost predicate VersionsUnique(f: Fun, vars: map<Site, Var>) {
    forall s, s' :: s in vars && s' in vars && s != s' && SiteRegion(f, s) == SiteRegion(f, s') ==> vars[s].version != vars[s'].version
  }

  lemma RecordedUsesAreLast(f: Fun, lists: seq<seq<nat>>, ds: set<nat>, vars: map<Site, Var>, uses: map<(nat, nat), Var>, ops: map<(nat, nat, nat), Var>)
    requires AllRecorded(f, lists, ds, vars, uses, ops) && PhisClosed(f, PhisOf(lists, f.regions))
    requires forall b :: 0 <= b < |f.body| ==> b in ds
    ensures UsesLastDef(f, PhisOf(lists, f.regions), vars, uses)
  {
    hide PhisClosed, TreeDef, PathDef, PhisOf;
    var phis := PhisOf(lists, f.regions);
    forall p, i: nat | f.cfg.IsPath(p) && i < |f.body[p[|p| - 1]]| ensures UseIsLastDef(f, phis, vars, uses, p, i) {
      var b := p[|p| - 1];
      assert b in ds && Recorded(f, phis, uses, vars, b);
      assert RecordedAt(f, phis, uses, vars, b, i);
      EveryPathAgrees(f, phis, p, i, f.body[b][i].region);
    }
  }

  lemma FilledOperandsAreLast(f: Fun, lists: seq<seq<nat>>, ds: set<nat>, vars: map<Site, Var>, uses: map<(nat, nat), Var>, ops: map<(nat, nat, nat), Var>)
    requires AllRecorded(f, lists, ds, vars, uses, ops) && PhisClosed(f, PhisOf(lists, f.regions))
    requires forall b :: 0 <= b < |f.body| ==> b in ds
    ensures OperandsLastDef(f, PhisOf(lists, f.regions), vars, ops)
  {
    hide PhisClosed, TreeDef, PathDef;
    var phis := PhisOf(lists, f.regions);
    forall p, y, r | f.cfg.IsPath(p) && y in f.cfg.succ[p[|p| - 1]] && r in f.regions && HasPhi(phis, y, r)
      ensures OperandIsLastDef(f, phis, vars, ops, p, y, r)
    {
      var x := p[|p| - 1];
      assert OperandsFilled(f, phis, lists, ops, vars, x);
      assert OperandFilled(f, phis, ops, vars, x, y, r);
      EveryPathAgrees(f, phis, p, |f.body[x]|, r);
    }
  }

  // The dominance frontiers and defining blocks that the analysis starts from.
  ghost predicate FrontiersOf(f: Fun, df: Frontiers) {
    && |f.cfg.pred| == |f.body|
    && (forall x: nat :: x in df <==> x < |f.body|)
    && (forall x, y: nat :: x in df ==> (y in df[x] <==> y < |f.cfg.pred| && f.cfg.InFrontier(x, y)))
  }

  ghost predicate DefsOf(f: Fun, defs: map<nat, set<nat>>) {
    forall r :: r in f.regions ==> r in defs && forall b: nat :: b in defs[r] <==> f.Defines(b, r)
  }

  // buildSSA for one function: phi placement, then renaming.
  method BuildSsa(f: Fun, df: Frontiers, defs: map<nat, set<nat>>, root: DomTree) returns (ssa: Renamer)
    requires f.Valid() && FrontiersOf(f, df) && DefsOf(f, defs)
    requires root.block == 0 && IsDomTree(f, root) && forall b :: 0 <= b < |f.body| ==> b in Blocks(root)
    ensures fresh(ssa) && ssa.f == f && |ssa.lists| == |f.body|
    ensures forall r :: r in f.regions ==> IsIterated(df, defs[r], BlocksWith(ssa.lists, r))
    ensures forall b :: 0 <= b < |f.body| ==> NoDuplicates(ssa.lists[b])
    ensures UsesLastDef(f, PhisOf(ssa.lists, f.regions), ssa.vars, ssa.uses)
    ensures OperandsLastDef(f, PhisOf(ssa.lists, f.regions), ssa.vars, ssa.ops)
    ensures VersionsUnique(f, ssa.vars)
  {
    hide AllRecorded, PhisClosed, UsesLastDef, OperandsLastDef, Fun.Valid, IsDomTree, IsIterated, NoDuplicates, PhisOf, StacksHold;
    InputsAreWellFormed(f, df, defs);
    var lists := ComputePhi(df, f.regions, defs, |f.body|);
    PlacementCloses(f, df, defs, lists);
    ssa := new Renamer(f, lists);
    ssa.Rename(root);
    RecordedUsesAreLast(f, lists, ssa.visited, ssa.vars, ssa.uses, ssa.ops);
    FilledOperandsAreLast(f, lists, ssa.visited, ssa.vars, ssa.uses, ssa.ops);
  }

  lemma InputsAreWellFormed(f: Fun, df: Frontiers, defs: map<nat, set<nat>>)
    requires FrontiersOf(f, df) && DefsOf(f, defs)
    ensures forall r :: r in f.regions ==> r in defs && WellFormedInput(df, |f.body|, defs[r])
  {
  }

  lemma PlacementCloses(f: Fun, df: Frontiers, defs: map<nat, set<nat>>, lists: seq<seq<nat>>)
    requires FrontiersOf(f, df) && DefsOf(f, defs) && |lists| == |f.body|
    requires forall r :: r in f.regions ==> r in defs && IsIterated(df, defs[r], BlocksWith(lists, r))
    ensures PhisClosed(f, PhisOf(lists, f.regions))
  {
    hide IsIterated;
    PlacementIsClosed(f, df, defs, lists);
  }
}
