// What memory SSA promises: along every path from the entry, the definition recorded at a use is
// the last one on the path.
module MemorySsaSpec {
  import opened Sequences
  import opened Dominance

  // The memory accesses of a block in order: a mu reads a region, a chi reads and redefines it.
  datatype Access = Mu(region: nat) | Chi(region: nat)

  // Where a version of a region is defined.
  datatype Site = EntryChi(region: nat) | Phi(block: nat, region: nat) | ChiAt(block: nat, index: nat)

  datatype Fun = Fun(cfg: Cfg, body: seq<seq<Access>>, regions: set<nat>, idom: map<nat, nat>) {

    ghost predicate Valid() {
      && cfg.Valid() && cfg.AllReachable() && |body| == |cfg.succ|
      && (forall b, i :: 0 <= b < |body| && 0 <= i < |body[b]| ==> body[b][i].region in regions)
      && (forall b :: 0 < b < |cfg.succ| ==> b in idom && cfg.IsIdom(idom[b], b))
    }

    // The blocks that define "r": those with a chi, and the entry block.
    ghost predicate Defines(b: nat, r: nat) {
      b < |body| && (b == 0 || Chi(r) in body[b])
    }
  }

  // The blocks holding a phi, by region.
  type Phis = map<nat, set<nat>>

  ghost predicate HasPhi(phis: Phis, b: nat, r: nat) {
    r in phis && b in phis[r]
  }

  // Phi placement is closed: a block in the dominance frontier of a block that defines "r", by a
  // chi, a phi or as the entry, has a phi for "r".
  ghost predicate PhisClosed(f: Fun, phis: Phis) {
    forall r: nat, x: nat, y: nat ::
      (&& r in f.regions && x < |f.body| && y < |f.cfg.pred|
       && (f.Defines(x, r) || HasPhi(phis, x, r)) && f.cfg.InFrontier(x, y))
      ==> HasPhi(phis, y, r)
  }

  // The last definition of "r" within block "b" before its access number "i".
  ghost function LocalDef(f: Fun, phis: Phis, b: nat, i: nat, r: nat): Option<Site>
    requires b < |f.body| && i <= |f.body[b]|
    decreases i
  {
    if i == 0 then (if HasPhi(phis, b, r) then Some(Phi(b, r)) else None)
    else if f.body[b][i - 1] == Chi(r) then Some(ChiAt(b, i - 1))
    else LocalDef(f, phis, b, i - 1, r)
  }

  // The last definition of "r" on the path "p", just before access number "i" of its last block.
  ghost function PathDef(f: Fun, phis: Phis, p: seq<nat>, i: nat, r: nat): Site
    requires f.Valid() && f.cfg.IsPath(p) && i <= |f.body[p[|p| - 1]]|
    decreases |p|
  {
    var b := p[|p| - 1];
    match LocalDef(f, phis, b, i, r)
    case Some(s) => s
    case None =>
      if |p| == 1 then EntryChi(r)
      else
        PrefixIsPath(f.cfg, p, |p| - 2);
        PathDef(f, phis, p[..|p| - 1], |f.body[p[|p| - 2]]|, r)
  }

  // The definition that renaming finds: in the block, or else at the end of the immediate
  // dominator.
  ghost function TreeDef(f: Fun, phis: Phis, b: nat, i: nat, r: nat): Site
    requires f.Valid() && b < |f.body| && i <= |f.body[b]|
    decreases f.cfg.Doms(b)
  {
    match LocalDef(f, phis, b, i, r)
    case Some(s) => s
    case None =>
      if b == 0 then EntryChi(r)
      else
        IdomShrinksDoms(f.cfg, f.idom[b], b);
        TreeDef(f, phis, f.idom[b], |f.body[f.idom[b]]|, r)
  }

  ghost function OutDef(f: Fun, phis: Phis, b: nat, r: nat): Site
    requires f.Valid() && b < |f.body|
  {
    TreeDef(f, phis, b, |f.body[b]|, r)
  }

  // A block that neither defines the region nor holds a phi for it passes it through.
  lemma {:induction false} NoLocalDef(f: Fun, phis: Phis, b: nat, i: nat, r: nat)
    requires b < |f.body| && i <= |f.body[b]| && !f.Defines(b, r) && !HasPhi(phis, b, r)
    ensures LocalDef(f, phis, b, i, r) == None
    decreases i
  {
    if i > 0 {
      assert f.body[b][i - 1] in f.body[b];
      NoLocalDef(f, phis, b, i - 1, r);
    }
  }

  // Between a predecessor "q" of a phi-less block "y" and the immediate dominator of "y", no
  // block on the way up the dominator tree defines the region.
  lemma {:induction false} ClimbToIdom(f: Fun, phis: Phis, y: nat, q: nat, z: nat, r: nat)
    requires f.Valid() && PhisClosed(f, phis) && r in f.regions
    requires 0 < y < |f.body| && !HasPhi(phis, y, r) && q in f.cfg.pred[y] && q < |f.body|
    requires z < |f.body| && f.cfg.Dom(z, q) && f.cfg.Dom(f.idom[y], z)
    ensures OutDef(f, phis, z, r) == OutDef(f, phis, f.idom[y], r)
    decreases f.cfg.Doms(z)
  {
    var d := f.idom[y];
    if z != d {
      NotBetween(f.cfg, d, z, y);
      assert f.cfg.InFrontier(z, y);
      if z == 0 {
        OnlyEntryDominatesEntry(f.cfg, d);
      }
      NoLocalDef(f, phis, z, |f.body[z]|, r);
      var u := f.idom[z];
      IdomShrinksDoms(f.cfg, u, z);
      DomTransitive(f.cfg, u, z, q);
      assert f.cfg.Dom(d, u);
      ClimbToIdom(f, phis, y, q, u, r);
    }
  }

  // Only the entry dominates the entry.
  lemma OnlyEntryDominatesEntry(c: Cfg, d: nat)
    requires c.Valid() && c.Dom(d, 0)
    ensures d == 0
  {
    assert c.PathTo(0, [0]);
  }

  // What flows out of a predecessor of a phi-less block is what flows out of its immediate
  // dominator.
  lemma PredecessorsAgree(f: Fun, phis: Phis, y: nat, q: nat, r: nat)
    requires f.Valid() && PhisClosed(f, phis) && r in f.regions
    requires 0 < y < |f.body| && !HasPhi(phis, y, r) && q in f.cfg.pred[y] && q < |f.body|
    ensures OutDef(f, phis, q, r) == OutDef(f, phis, f.idom[y], r)
  {
    IdomDominatesPred(f.cfg, f.idom[y], y, q);
    DomReflexive(f.cfg, q);
    ClimbToIdom(f, phis, y, q, q, r);
  }

  lemma {:induction false} PhiIsLocal(f: Fun, phis: Phis, b: nat, i: nat, r: nat)
    requires b < |f.body| && i <= |f.body[b]| && HasPhi(phis, b, r)
    ensures LocalDef(f, phis, b, i, r).Some?
    decreases i
  {
    if i > 0 {
      PhiIsLocal(f, phis, b, i - 1, r);
    }
  }

  // The main theorem of memory SSA: on every path from the entry to a block, the last definition
  // of a region before an access is the one found through the dominator tree.
  lemma {:induction false} EveryPathAgrees(f: Fun, phis: Phis, p: seq<nat>, i: nat, r: nat)
    requires f.Valid() && PhisClosed(f, phis) && r in f.regions
    requires f.cfg.IsPath(p) && i <= |f.body[p[|p| - 1]]|
    ensures PathDef(f, phis, p, i, r) == TreeDef(f, phis, p[|p| - 1], i, r)
    decreases |p|
  {
    var y := p[|p| - 1];
    if LocalDef(f, phis, y, i, r).None? {
      if HasPhi(phis, y, r) {
        PhiIsLocal(f, phis, y, i, r);
      }
      if |p| > 1 {
        var q := p[|p| - 2];
        PrefixIsPath(f.cfg, p, |p| - 2);
        assert y in f.cfg.succ[q] && q in f.cfg.pred[y];
        assert y != 0;
        EveryPathAgrees(f, phis, p[..|p| - 1], |f.body[q]|, r);
        PredecessorsAgree(f, phis, y, q, r);
      }
    }
  }
}
