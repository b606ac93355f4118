// Memory SSA of a function with two blocks: a chi in the first, a mu in the second.
module MemorySsaExample {
  import opened Sequences
  import opened Dominance
  import opened MemorySsaSpec
  import opened PhiPlacement
  import opened Renaming
  import opened MemorySsa

  function TwoBlocks(): Fun {
    Fun(Cfg([[1], []], [[], [0]]), [[Chi(0)], [Mu(0)]], {0}, map[1 := 0])
  }

  lemma TwoBlocksPaths()
    ensures var c := TwoBlocks().cfg;
      c.Valid() && c.AllReachable() && c.PathTo(0, [0]) && c.PathTo(1, [0, 1]) && c.IsIdom(0, 1)
  {
    var c := TwoBlocks().cfg;
    assert c.PathTo(0, [0]) && c.PathTo(1, [0, 1]);
    forall b | 0 <= b < |c.succ| ensures c.Reachable(b) {
      assert b == 0 || b == 1;
    }
    forall p | c.PathTo(1, p) ensures 0 in p {
      assert p[0] == 0;
    }
    forall z | c.StrictlyDom(z, 1) ensures c.Dom(z, 0) {
      assert z in [0, 1];
      DomReflexive(c, 0);
    }
  }

  // No block has a frontier.
  lemma TwoBlocksFrontiers()
    ensures TwoBlocks().Valid()
    ensures FrontiersOf(TwoBlocks(), map[0 := {}, 1 := {}]) && DefsOf(TwoBlocks(), map[0 := {0}])
  {
    TwoBlocksPaths();
    var c := TwoBlocks().cfg;
    forall x: nat, y: nat | x < 2 && y < 2 ensures !c.InFrontier(x, y) {
      if y == 1 && exists q :: q in c.pred[1] && c.Dom(x, q) {
        assert c.Dom(x, 0);
        assert x in [0];
      }
    }
  }

  lemma TwoBlocksTree(root: DomTree)
    requires root == DomTree(0, [DomTree(1, [])])
    ensures IsDomTree(TwoBlocks(), root) && Blocks(root) == {0, 1}
  {
    assert root.kids[1..] == [];
    assert Blocks(root.kids[0]) == {1} && ForestBlocks(root.kids) == {1};
    assert IsDomTree(TwoBlocks(), root.kids[0]) && IsDomForest(TwoBlocks(), 0, root.kids);
  }

  // Without frontiers there are no phis.
  lemma NoPhis(lists: seq<seq<nat>>)
    requires IsIterated(map[0 := {}, 1 := {}], {0}, BlocksWith(lists, 0))
    ensures !HasPhi(PhisOf(lists, {0}), 1, 0)
  {
    assert ClosedUnder(map[0 := {}, 1 := {}], {0}, {});
  }

  lemma MuSeesChi(phis: Phis, vars: map<Site, Var>, uses: map<(nat, nat), Var>)
    requires TwoBlocks().Valid() && UsesLastDef(TwoBlocks(), phis, vars, uses) && !HasPhi(phis, 1, 0)
    ensures (1, 0) in uses && ChiAt(0, 0) in vars && uses[(1, 0)] == vars[ChiAt(0, 0)]
  {
    var f, p := TwoBlocks(), [0, 1];
    TwoBlocksPaths();
    assert UseIsLastDef(f, phis, vars, uses, p, 0);
    assert p[..1] == [0] && f.cfg.IsPath([0]);
    assert LocalDef(f, phis, 0, 1, 0) == Some(ChiAt(0, 0));
    assert PathDef(f, phis, [0], 1, 0) == ChiAt(0, 0);
    assert PathDef(f, phis, p, 0, 0) == ChiAt(0, 0);
  }

  // The mu reads the version that the chi defines.
  method MuReadsChi() returns (read: Var, defined: Var)
    ensures read == defined
  {
    hide IsDomTree, FrontiersOf, DefsOf, Fun.Valid, Cfg.IsIdom, UsesLastDef, OperandsLastDef, IsIterated, PhisOf;
    TwoBlocksFrontiers();
    var f, root := TwoBlocks(), DomTree(0, [DomTree(1, [])]);
    TwoBlocksTree(root);
    var ssa := BuildSsa(f, map[0 := {}, 1 := {}], map[0 := {0}], root);
    NoPhis(ssa.lists);
    MuSeesChi(PhisOf(ssa.lists, f.regions), ssa.vars, ssa.uses);
    read, defined := ssa.uses[(1, 0)], ssa.vars[ChiAt(0, 0)];
  }
}
