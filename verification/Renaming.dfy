// Renaming over the dominator tree: version counters, one stack of versions per region, and the
// version recorded at every mu, chi and phi operand.
module Renaming {
  import opened Sequences
  import opened Dominance
  import opened MemorySsaSpec
  import opened PhiPlacement

  datatype Var = Var(site: Site, version: nat)

  datatype DomTree = DomTree(block: nat, kids: seq<DomTree>)

  ghost function Blocks(t: DomTree): set<nat> {
    {t.block} + ForestBlocks(t.kids)
  }

  ghost function ForestBlocks(ts: seq<DomTree>): set<nat> {
    if ts == [] then {} else Blocks(ts[0]) + ForestBlocks(ts[1..])
  }

  // "t" is a piece of the dominator tree: kids are immediately dominated, no block occurs twice.
  ghost predicate IsDomTree(f: Fun, t: DomTree)
    decreases t
  {
    t.block < |f.body| && t.block !in ForestBlocks(t.kids) && IsDomForest(f, t.block, t.kids)
  }

  ghost predicate IsDomForest(f: Fun, parent: nat, ts: seq<DomTree>)
    decreases ts
  {
    ts == [] || (&& 0 < ts[0].block < |f.body| && ts[0].block in f.idom && f.idom[ts[0].block] == parent
                 && IsDomTree(f, ts[0]) && Blocks(ts[0]) !! ForestBlocks(ts[1..])
                 && IsDomForest(f, parent, ts[1..]))
  }

  ghost function SiteRegion(f: Fun, s: Site): nat {
    match s
    case EntryChi(r) => r
    case Phi(_, r) => r
    case ChiAt(b, i) => if b < |f.body| && i < |f.body[b]| then f.body[b][i].region else 0
  }

  // Versions: every site has its own, below the counter of its region.
  ghost predicate Numbered(f: Fun, vars: map<Site, Var>, counters: map<nat, nat>) {
    && (forall s :: s in vars ==> vars[s].site == s && SiteRegion(f, s) in counters && vars[s].version < counters[SiteRegion(f, s)])
    && (forall s, s' :: s in vars && s' in vars && s != s' && SiteRegion(f, s) == SiteRegion(f, s') ==>
          vars[s].version != vars[s'].version)
  }

  // The stacks hold existing versions.
  ghost predicate StacksHold(stacks: map<nat, seq<Var>>, vars: map<Site, Var>) {
    forall r, v :: r in stacks && v in stacks[r] ==> v.site in vars && vars[v.site] == v
  }

  ghost predicate TopIs(stacks: map<nat, seq<Var>>, r: nat, s: Site) {
    r in stacks && stacks[r] != [] && stacks[r][|stacks[r]| - 1].site == s
  }

  // Every stack has on top the definition found through the dominator tree.
  ghost predicate Tops(f: Fun, phis: Phis, stacks: map<nat, seq<Var>>, b: nat, i: nat)
    requires f.Valid() && b < |f.body| && i <= |f.body[b]|
  {
    forall r :: r in f.regions ==> TopIs(stacks, r, TreeDef(f, phis, b, i, r))
  }

  ghost function InDef(f: Fun, phis: Phis, b: nat, r: nat): Site
    requires f.Valid() && b < |f.body|
  {
    if b == 0 then EntryChi(r) else OutDef(f, phis, f.idom[b], r)
  }

  ghost predicate TopsIn(f: Fun, phis: Phis, stacks: map<nat, seq<Var>>, b: nat)
    requires f.Valid() && b < |f.body|
  {
    forall r :: r in f.regions ==> TopIs(stacks, r, InDef(f, phis, b, r))
  }

  // The regions that the first "i" accesses of a block redefine.
  ghost function Chis(accesses: seq<Access>, i: nat): multiset<nat>
    requires i <= |accesses|
  {
    if i == 0 then multiset{}
    else Chis(accesses, i - 1) + (if accesses[i - 1].Chi? then multiset{accesses[i - 1].region} else multiset{})
  }

  // "stacks" is "base" with versions pushed on top, one for each element of "pushed".
  ghost predicate Above(base: map<nat, seq<Var>>, stacks: map<nat, seq<Var>>, pushed: multiset<nat>) {
    && stacks.Keys == base.Keys
    && (forall r :: r in base ==> base[r] <= stacks[r] && |stacks[r]| == |base[r]| + pushed[r])
  }

  // What has been recorded for a renamed block.
  ghost predicate Recorded(f: Fun, phis: Phis, uses: map<(nat, nat), Var>, vars: map<Site, Var>, b: nat)
    requires f.Valid() && b < |f.body|
  {
    && (forall i :: 0 <= i < |f.body[b]| ==> RecordedAt(f, phis, uses, vars, b, i))
    && (forall r :: r in f.regions && HasPhi(phis, b, r) ==> Phi(b, r) in vars)
  }

  ghost predicate RecordedAt(f: Fun, phis: Phis, uses: map<(nat, nat), Var>, vars: map<Site, Var>, b: nat, i: nat)
    requires f.Valid() && b < |f.body| && i < |f.body[b]|
  {
    var s := TreeDef(f, phis, b, i, f.body[b][i].region);
    && (b, i) in uses && s in vars && uses[(b, i)] == vars[s]
    && (f.body[b][i].Chi? ==> ChiAt(b, i) in vars)
  }

  // The operand of the phi for "r" in "y" that belongs to the edge from "x".
  ghost predicate OperandsFilled(f: Fun, phis: Phis, lists: seq<seq<nat>>, ops: map<(nat, nat, nat), Var>, vars: map<Site, Var>, x: nat)
    requires f.Valid() && x < |f.body| && |lists| == |f.body|
  {
    forall y, r :: y in f.cfg.succ[x] && r in f.regions && y < |lists| && r in lists[y] ==> OperandFilled(f, phis, ops, vars, x, y, r)
  }

  ghost predicate OperandFilled(f: Fun, phis: Phis, ops: map<(nat, nat, nat), Var>, vars: map<Site, Var>, x: nat, y: nat, r: nat)
    requires f.Valid() && x < |f.body|
  {
    y < |f.cfg.pred| &&
    var k := (y, r, WhichPred(f.cfg, x, y));
    var s := OutDef(f, phis, x, r);
    k in ops && s in vars && ops[k] == vars[s]
  }

  // whichPred: the position of the first edge from "x" among the predecessors of "y".
  function WhichPred(c: Cfg, x: nat, y: nat): (k: nat)
    requires y < |c.pred|
    ensures k <= |c.pred[y]|
    ensures forall j :: 0 <= j < k ==> c.pred[y][j] != x
    ensures x in c.pred[y] ==> k < |c.pred[y]| && c.pred[y][k] == x
  {
    FirstIndex(c.pred[y], x)
  }

  function FirstIndex(s: seq<nat>, x: nat): (k: nat)
    ensures k <= |s|
    ensures forall j :: 0 <= j < k ==> s[j] != x
    ensures x in s ==> k < |s| && s[k] == x
  {
    if s == [] || s[0] == x then 0 else FirstIndex(s[1..], x) + 1
  }

  // Pushing one new version.
  ghost predicate PushesOne(f: Fun, vars: map<Site, Var>, counters: map<nat, nat>, stacks: map<nat, seq<Var>>,
                            vars': map<Site, Var>, counters': map<nat, nat>, stacks': map<nat, seq<Var>>, s: Site)
  {
    var r := SiteRegion(f, s);
    && r in counters && r in stacks && s !in vars
    && vars' == vars[s := Var(s, counters[r])]
    && counters' == counters[r := counters[r] + 1]
    && stacks' == stacks[r := stacks[r] + [Var(s, counters[r])]]
  }

  lemma PushKeepsNumbered(f: Fun, vars: map<Site, Var>, counters: map<nat, nat>, stacks: map<nat, seq<Var>>,
                          vars': map<Site, Var>, counters': map<nat, nat>, stacks': map<nat, seq<Var>>, s: Site)
    requires PushesOne(f, vars, counters, stacks, vars', counters', stacks', s)
    requires Numbered(f, vars, counters) && StacksHold(stacks, vars)
    ensures Numbered(f, vars', counters') && StacksHold(stacks', vars')
  {
  }

  class Renamer {
    const f: Fun
    const lists: seq<seq<nat>>
    var counters: map<nat, nat>
    var stacks: map<nat, seq<Var>>
    // The version each entry chi, phi and chi defines.
    var vars: map<Site, Var>
    // The version each mu reads and each chi overwrites, by block and position.
    var uses: map<(nat, nat), Var>
    // Phi operands, by block, region and predecessor index.
    var ops: map<(nat, nat, nat), Var>
    ghost var visited: set<nat>

    ghost function P(): Phis {
      PhisOf(lists, f.regions)
    }

    ghost predicate Shape() {
      && f.Valid() && |lists| == |f.body|
      && (forall b :: 0 <= b < |lists| ==> NoDuplicates(lists[b]))
      && (forall b, r :: 0 <= b < |lists| && r in lists[b] ==> r in f.regions)
    }

    ghost predicate Valid()
      reads this
    {
      && Shape()
      && counters.Keys == f.regions && stacks.Keys == f.regions
      && Numbered(f, vars, counters) && StacksHold(stacks, vars)
      && (forall s :: s in vars ==> s.EntryChi? || s.block in visited)
    }

    constructor (f: Fun, lists: seq<seq<nat>>)
      ensures this.f == f && this.lists == lists
      ensures counters == map[] && stacks == map[] && vars == map[] && uses == map[] && ops == map[] && visited == {}
    {
      this.f, this.lists := f, lists;
      counters, stacks, vars, uses, ops, visited := map[], map[], map[], map[], map[], {};
    }

    // A new version of "r", defined at "s", goes on top of its stack.
    method Define(r: nat, s: Site)
      requires Valid() && r in f.regions && SiteRegion(f, s) == r && s !in vars
      requires s.EntryChi? || s.block in visited
      modifies this`counters, this`stacks, this`vars
      ensures Valid()
      ensures PushesOne(f, old(vars), old(counters), old(stacks), vars, counters, stacks, s)
    {
      hide Numbered, StacksHold, Fun.Valid, NoDuplicates;
      var v := Var(s, counters[r]);
      vars := vars[s := v];
      stacks := stacks[r := stacks[r] + [v]];
      counters := counters[r := counters[r] + 1];
      PushKeepsNumbered(f, old(vars), old(counters), old(stacks), vars, counters, stacks, s);
    }

    // The phis of "b" define a version each.
    method DefinePhis(b: nat)
      requires Valid() && b < |f.body| && b in visited && TopsIn(f, P(), stacks, b)
      requires forall s :: s in vars ==> s.EntryChi? || s.block != b
      modifies this`counters, this`stacks, this`vars
      ensures Valid() && Tops(f, P(), stacks, b, 0)
      ensures PhisDone(lists[b], |lists[b]|, b, old(stacks), old(vars), stacks, vars)
    {
      hide Numbered, StacksHold, Fun.Valid, TopsIn, Tops, PhisDone, PushesOne, NoDuplicates;
      var list := lists[b];
      NoPhiDone(list, b, stacks, vars);
      for k := 0 to |list|
        invariant Valid() && PhisDone(list, k, b, old(stacks), old(vars), stacks, vars)
      {
        ghost var vars0, counters0, stacks0 := vars, counters, stacks;
        NextPhiIsNew(list, k, b, old(stacks), old(vars), stacks, vars);
        Define(list[k], Phi(b, list[k]));
        PhiDone(f, list, k, b, old(stacks), old(vars), vars0, counters0, stacks0, vars, counters, stacks);
      }
      AllPhisDone(f, lists, b, old(stacks), old(vars), stacks, vars);
    }

    // The version on top of the stack of "r".
    method Top(r: nat, ghost s: Site) returns (v: Var)
      requires Valid() && TopIs(stacks, r, s)
      ensures v.site == s && s in vars && vars[s] == v
    {
      hide Numbered, Fun.Valid, NoDuplicates;
      v := stacks[r][|stacks[r]| - 1];
      assert v in stacks[r];
    }

    // One access: a mu reads the top, a chi reads it and defines the next version.
    method RenameAccess(b: nat, i: nat, ghost base: map<nat, seq<Var>>, ghost vars0: map<Site, Var>, ghost uses0: map<(nat, nat), Var>)
      requires Valid() && b < |f.body| && i < |f.body[b]| && b in visited
      requires AccessesDone(f, lists, b, i, base, vars0, uses0, stacks, vars, uses)
      modifies this`counters, this`stacks, this`vars, this`uses
      ensures Valid() && AccessesDone(f, lists, b, i + 1, base, vars0, uses0, stacks, vars, uses)
    {
      hide Numbered, StacksHold, NoDuplicates, AccessesDone, PushesOne, TreeDef;
      var r := f.body[b][i].region;
      AccessTop(f, lists, b, i, base, vars0, uses0, stacks, vars, uses);
      var v := Top(r, TreeDef(f, P(), b, i, r));
      uses := uses[(b, i) := v];
      if f.body[b][i].Chi? {
        Define(r, ChiAt(b, i));
        ChiDone(f, lists, b, i, base, vars0, uses0, old(vars), old(counters), old(stacks), old(uses), vars, counters, stacks, uses);
      } else {
        MuDone(f, lists, b, i, base, vars0, uses0, stacks, vars, old(uses), uses);
      }
    }

    // All accesses of "b" in order.
    method RenameAccesses(b: nat, ghost base: map<nat, seq<Var>>, ghost vars0: map<Site, Var>, ghost uses0: map<(nat, nat), Var>)
      requires Valid() && b < |f.body| && b in visited
      requires AccessesDone(f, lists, b, 0, base, vars0, uses0, stacks, vars, uses)
      modifies this`counters, this`stacks, this`vars, this`uses
      ensures Valid() && AccessesDone(f, lists, b, |f.body[b]|, base, vars0, uses0, stacks, vars, uses)
    {
      hide Numbered, StacksHold, NoDuplicates, AccessesDone, Fun.Valid;
      for i := 0 to |f.body[b]|
        invariant Valid() && AccessesDone(f, lists, b, i, base, vars0, uses0, stacks, vars, uses)
      {
        RenameAccess(b, i, base, vars0, uses0);
      }
    }

    // The operand, for the edge from "b", of the phi for "r" in "y".
    method FillOperand(b: nat, y: nat, r: nat, ghost ops0: map<(nat, nat, nat), Var>)
      requires Valid() && b < |f.body| && y in f.cfg.succ[b] && y < |lists| && r in f.regions
      requires Tops(f, P(), stacks, b, |f.body[b]|) && OpsOnlyAt(f, ops0, ops, b)
      modifies this`ops
      ensures OpsOnlyAt(f, ops0, ops, b) && OperandFilled(f, P(), ops, vars, b, y, r)
      ensures forall q :: OperandFilled(f, P(), old(ops), vars, b, y, q) ==> OperandFilled(f, P(), ops, vars, b, y, q)
      ensures forall z, q :: OperandFilled(f, P(), old(ops), vars, b, z, q) ==> OperandFilled(f, P(), ops, vars, b, z, q)
    {
      hide Numbered, StacksHold, NoDuplicates, TreeDef, PhisOf;
      var index := FindPred(f.cfg, b, y);
      assert TopIs(stacks, r, OutDef(f, P(), b, r));
      var v := Top(r, OutDef(f, P(), b, r));
      ops := ops[(y, r, index) := v];
    }

    // The operands of the phis in one successor.
    method FillSuccessor(b: nat, y: nat, ghost ops0: map<(nat, nat, nat), Var>)
      requires Valid() && b < |f.body| && y in f.cfg.succ[b] && y < |lists|
      requires Tops(f, P(), stacks, b, |f.body[b]|) && OpsOnlyAt(f, ops0, ops, b)
      modifies this`ops
      ensures OpsOnlyAt(f, ops0, ops, b)
      ensures forall r :: r in lists[y] ==> OperandFilled(f, P(), ops, vars, b, y, r)
      ensures forall z, q :: OperandFilled(f, P(), old(ops), vars, b, z, q) ==> OperandFilled(f, P(), ops, vars, b, z, q)
    {
      hide Numbered, StacksHold, NoDuplicates, OperandFilled, OpsOnlyAt, Tops, PhisOf;
      for k := 0 to |lists[y]|
        invariant OpsOnlyAt(f, ops0, ops, b)
        invariant forall j :: 0 <= j < k ==> OperandFilled(f, P(), ops, vars, b, y, lists[y][j])
        invariant forall z, q :: OperandFilled(f, P(), old(ops), vars, b, z, q) ==> OperandFilled(f, P(), ops, vars, b, z, q)
      {
        FillOperand(b, y, lists[y][k], ops0);
      }
    }

    // The phi operands along all edges leaving "b".
    method FillOperands(b: nat)
      requires Valid() && b < |f.body| && Tops(f, P(), stacks, b, |f.body[b]|)
      modifies this`ops
      ensures OpsOnlyAt(f, old(ops), ops, b) && OperandsFilled(f, P(), lists, ops, vars, b)
    {
      hide Numbered, StacksHold, NoDuplicates, OperandFilled, OpsOnlyAt, Tops, PhisOf;
      assert OpsOnlyAt(f, ops, ops, b) by { OpsUnchanged(f, ops, b); }
      var succ := f.cfg.succ[b];
      assert forall j :: 0 <= j < |succ| ==> succ[j] in f.cfg.succ[b];
      for e := 0 to |succ|
        invariant OpsOnlyAt(f, old(ops), ops, b)
        invariant forall j :: 0 <= j < |succ| ==> succ[j] < |lists|
        invariant forall j, r :: 0 <= j < e && r in lists[succ[j]] ==> OperandFilled(f, P(), ops, vars, b, succ[j], r)
      {
        FillSuccessor(b, succ[e], old(ops));
      }
    }

    // Takes one version of "r" off its stack.
    method Pop(r: nat, ghost base: map<nat, seq<Var>>, ghost pushed: multiset<nat>)
      requires Valid() && Above(base, stacks, pushed) && r in base && r in pushed
      modifies this`stacks
      ensures Valid() && Above(base, stacks, pushed - multiset{r})
    {
      hide Numbered, NoDuplicates, Fun.Valid;
      stacks := stacks[r := stacks[r][..|stacks[r]| - 1]];
    }

    method PopPhis(b: nat, ghost base: map<nat, seq<Var>>, ghost chis: multiset<nat>)
      requires Valid() && b < |f.body| && base.Keys == f.regions
      requires Above(base, stacks, multiset(lists[b]) + chis)
      modifies this`stacks
      ensures Valid() && Above(base, stacks, chis)
    {
      hide Numbered, StacksHold, NoDuplicates, Above, Fun.Valid;
      var list := lists[b];
      ghost var pushed := multiset(list) + chis;
      assert list[0..] == list;
      for k := 0 to |list|
        invariant Valid() && Above(base, stacks, pushed)
        invariant pushed == multiset(list[k..]) + chis
      {
        assert list[k..] == [list[k]] + list[k + 1..];
        Pop(list[k], base, pushed);
        pushed := pushed - multiset{list[k]};
      }
      assert pushed == chis;
    }

    method PopChis(b: nat, ghost base: map<nat, seq<Var>>)
      requires Valid() && b < |f.body| && base.Keys == f.regions
      requires Above(base, stacks, Chis(f.body[b], |f.body[b]|))
      modifies this`stacks
      ensures Valid() && stacks == base
    {
      hide Numbered, StacksHold, NoDuplicates, Above, Chis;
      ghost var chis := Chis(f.body[b], |f.body[b]|);
      ghost var pushed := chis;
      NoChis(f.body[b]);
      for i := 0 to |f.body[b]|
        invariant Valid() && Above(base, stacks, pushed)
        invariant pushed + Chis(f.body[b], i) == chis
      {
        ChisStep(f.body[b], i);
        ChisGrow(f.body[b], i + 1, |f.body[b]|);
        if f.body[b][i].Chi? {
          var r := f.body[b][i].region;
          assert chis[r] >= Chis(f.body[b], i + 1)[r];
          Pop(r, base, pushed);
          pushed := pushed - multiset{r};
        }
      }
      AboveNothing(base, stacks, pushed);
    }

    // The part of renameBB before the recursion: everything about block "b" itself is recorded.
    method RenameBlock(b: nat)
      requires Valid() && b < |f.body| && b !in visited && TopsIn(f, P(), stacks, b)
      requires AllRecorded(f, lists, visited, vars, uses, ops)
      modifies this
      ensures Valid() && visited == old(visited) + {b} && Tops(f, P(), stacks, b, |f.body[b]|)
      ensures Above(old(stacks), stacks, multiset(lists[b]) + Chis(f.body[b], |f.body[b]|))
      ensures AllRecorded(f, lists, visited, vars, uses, ops)
      ensures OnlyNewAt(old(vars), vars, b)
    {
      hide Numbered, StacksHold, NoDuplicates, Above, Tops, TopsIn, AllRecorded, PhisDone, AccessesDone, OperandsFilled, OpsOnlyAt, OnlyNewAt, PhisOf;
      visited := visited + {b};
      DefinePhis(b);
      PhisToAccesses(f, lists, b, old(stacks), old(vars), uses, stacks, vars);
      RenameAccesses(b, old(stacks), old(vars), old(uses));
      BlockIsRecorded(f, lists, b, old(stacks), old(vars), old(uses), stacks, vars, uses);
      FillOperands(b);
      OthersStayRecorded(f, lists, old(visited), b, old(vars), old(uses), old(ops), vars, uses, ops);
      OneMoreRecorded(f, lists, old(visited), b, vars, uses, ops);
    }

    // renameBB: renames the subtree and returns the stacks as it found them.
    method RenameBB(t: DomTree)
      requires Valid() && IsDomTree(f, t) && Blocks(t) !! visited && TopsIn(f, P(), stacks, t.block)
      requires AllRecorded(f, lists, visited, vars, uses, ops)
      modifies this
      ensures Valid() && stacks == old(stacks) && visited == old(visited) + Blocks(t)
      ensures AllRecorded(f, lists, visited, vars, uses, ops)
      ensures forall s :: s in old(vars) ==> s in vars && vars[s] == old(vars)[s]
      decreases t
    {
      hide Numbered, StacksHold, NoDuplicates, Above, Tops, TopsIn, AllRecorded, PhisOf;
      RenameBlock(t.block);
      RenameKids(t.block, t.kids);
      PopPhis(t.block, old(stacks), Chis(f.body[t.block], |f.body[t.block]|));
      PopChis(t.block, old(stacks));
    }

    method RenameKids(b: nat, kids: seq<DomTree>)
      requires Valid() && b < |f.body| && IsDomForest(f, b, kids) && ForestBlocks(kids) !! visited
      requires Tops(f, P(), stacks, b, |f.body[b]|)
      requires AllRecorded(f, lists, visited, vars, uses, ops)
      modifies this
      ensures Valid() && stacks == old(stacks) && visited == old(visited) + ForestBlocks(kids)
      ensures AllRecorded(f, lists, visited, vars, uses, ops)
      ensures forall s :: s in old(vars) ==> s in vars && vars[s] == old(vars)[s]
      decreases kids
    {
      hide Numbered, StacksHold, NoDuplicates, Tops, TopsIn, AllRecorded, PhisOf;
      assert kids[0..] == kids;
      for j := 0 to |kids|
        invariant Valid() && stacks == old(stacks)
        invariant IsDomForest(f, b, kids[j..]) && ForestBlocks(kids[j..]) !! visited
        invariant visited + ForestBlocks(kids[j..]) == old(visited) + ForestBlocks(kids)
        invariant AllRecorded(f, lists, visited, vars, uses, ops)
        invariant forall s :: s in old(vars) ==> s in vars && vars[s] == old(vars)[s]
      {
        assert kids[j..][0] == kids[j] && kids[j..][1..] == kids[j + 1..];
        KidTops(f, P(), stacks, b, kids[j].block);
        RenameBB(kids[j]);
      }
    }

    // One entry chi, with version 0, for every region.
    method DefineEntryChis()
      requires Shape() && counters == map[] && stacks == map[] && vars == map[] && visited == {}
      modifies this`counters, this`stacks, this`vars
      ensures Valid() && EntryDone(f.regions, {}, counters, stacks, vars)
    {
      hide NoDuplicates, Fun.Valid, Numbered, StacksHold, PushesOne, EntryDone;
      counters := map r | r in f.regions :: 0;
      stacks := map r | r in f.regions :: [];
      var todo := f.regions;
      NoEntryDone(f, counters, stacks, vars);
      while todo != {}
        invariant Valid() && todo <= f.regions && EntryDone(f.regions, todo, counters, stacks, vars)
      {
        var r :| r in todo;
        ghost var vars0, counters0, stacks0 := vars, counters, stacks;
        EntryIsNew(f.regions, todo, counters, stacks, vars, r);
        Define(r, EntryChi(r));
        EntryStep(f, todo, vars0, counters0, stacks0, vars, counters, stacks, r);
        todo := todo - {r};
      }
    }

    // rename: the entry chis, then the tree from the entry block.  Afterwards everything recorded
    // is right, and every stack holds its entry version only.
    method Rename(root: DomTree)
      requires Shape() && counters == map[] && stacks == map[] && vars == map[] && visited == {}
      requires root.block == 0 && IsDomTree(f, root)
      modifies this
      ensures Valid() && visited == Blocks(root)
      ensures AllRecorded(f, lists, visited, vars, uses, ops)
      ensures forall r :: r in f.regions ==> EntryChi(r) in vars && vars[EntryChi(r)].version == 0
      ensures forall r :: r in f.regions ==> stacks[r] == [vars[EntryChi(r)]]
    {
      hide NoDuplicates, AllRecorded, PhisOf, Numbered, StacksHold;
      DefineEntryChis();
      NothingRecorded(f, lists, vars, uses, ops);
      RenameBB(root);
    }
  }

  ghost predicate EntryDone(regions: set<nat>, todo: set<nat>, counters: map<nat, nat>, stacks: map<nat, seq<Var>>, vars: map<Site, Var>) {
    && counters.Keys == regions && stacks.Keys == regions
    && (forall r :: r in todo && r in regions ==> counters[r] == 0 && stacks[r] == [])
    && (forall s :: s in vars ==> s.EntryChi? && s.region in regions && s.region !in todo)
    && (forall r :: r in regions && r !in todo ==> EntryChi(r) in vars && vars[EntryChi(r)] == Var(EntryChi(r), 0) && stacks[r] == [Var(EntryChi(r), 0)])
  }

  lemma NoEntryDone(f: Fun, counters: map<nat, nat>, stacks: map<nat, seq<Var>>, vars: map<Site, Var>)
    requires counters.Keys == f.regions && stacks.Keys == f.regions && vars == map[]
    requires forall r :: r in f.regions ==> counters[r] == 0 && stacks[r] == []
    ensures EntryDone(f.regions, f.regions, counters, stacks, vars) && Numbered(f, vars, counters) && StacksHold(stacks, vars)
  {
  }

  lemma EntryIsNew(regions: set<nat>, todo: set<nat>, counters: map<nat, nat>, stacks: map<nat, seq<Var>>, vars: map<Site, Var>, r: nat)
    requires EntryDone(regions, todo, counters, stacks, vars) && r in todo
    ensures EntryChi(r) !in vars
  {
  }

  lemma EntryStep(f: Fun, todo: set<nat>, vars: map<Site, Var>, counters: map<nat, nat>, stacks: map<nat, seq<Var>>,
                  vars': map<Site, Var>, counters': map<nat, nat>, stacks': map<nat, seq<Var>>, r: nat)
    requires EntryDone(f.regions, todo, counters, stacks, vars) && r in todo
    requires PushesOne(f, vars, counters, stacks, vars', counters', stacks', EntryChi(r))
    ensures EntryDone(f.regions, todo - {r}, counters', stacks', vars')
  {
  }

  lemma NoChis(accesses: seq<Access>)
    ensures Chis(accesses, 0) == multiset{}
  {
  }

  lemma ChisStep(accesses: seq<Access>, i: nat)
    requires i < |accesses|
    ensures Chis(accesses, i + 1) == Chis(accesses, i) + (if accesses[i].Chi? then multiset{accesses[i].region} else multiset{})
  {
  }

  lemma NothingRecorded(f: Fun, lists: seq<seq<nat>>, vars: map<Site, Var>, uses: map<(nat, nat), Var>, ops: map<(nat, nat, nat), Var>)
    requires f.Valid() && |lists| == |f.body|
    ensures AllRecorded(f, lists, {}, vars, uses, ops)
  {
  }

  lemma KidTops(f: Fun, phis: Phis, stacks: map<nat, seq<Var>>, b: nat, k: nat)
    requires f.Valid() && b < |f.body| && 0 < k < |f.body| && f.idom[k] == b && Tops(f, phis, stacks, b, |f.body[b]|)
    ensures TopsIn(f, phis, stacks, k)
  {
    hide TreeDef;
  }

  lemma PhisToAccesses(f: Fun, lists: seq<seq<nat>>, b: nat, base: map<nat, seq<Var>>, vars0: map<Site, Var>, uses: map<(nat, nat), Var>,
                       stacks: map<nat, seq<Var>>, vars: map<Site, Var>)
    requires f.Valid() && |lists| == |f.body| && b < |f.body|
    requires PhisDone(lists[b], |lists[b]|, b, base, vars0, stacks, vars) && Tops(f, PhisOf(lists, f.regions), stacks, b, 0)
    requires forall s :: s in vars0 ==> s.EntryChi? || s.block != b
    ensures AccessesDone(f, lists, b, 0, base, vars0, uses, stacks, vars, uses)
  {
    hide Tops, Above, PhisOf, Fun.Valid;
    assert lists[b][..|lists[b]|] == lists[b];
    assert multiset(lists[b]) + Chis(f.body[b], 0) == multiset(lists[b]);
  }

  lemma BlockIsRecorded(f: Fun, lists: seq<seq<nat>>, b: nat, base: map<nat, seq<Var>>, vars0: map<Site, Var>, uses0: map<(nat, nat), Var>,
                        stacks: map<nat, seq<Var>>, vars: map<Site, Var>, uses: map<(nat, nat), Var>)
    requires b < |f.body| && AccessesDone(f, lists, b, |f.body[b]|, base, vars0, uses0, stacks, vars, uses)
    ensures Tops(f, PhisOf(lists, f.regions), stacks, b, |f.body[b]|)
    ensures Above(base, stacks, multiset(lists[b]) + Chis(f.body[b], |f.body[b]|))
    ensures Recorded(f, PhisOf(lists, f.regions), uses, vars, b) && OnlyNewAt(vars0, vars, b)
    ensures forall k :: k in uses0 && k.0 != b ==> k in uses && uses[k] == uses0[k]
  {
    hide Tops, Above, TreeDef;
  }

  lemma OneMoreRecorded(f: Fun, lists: seq<seq<nat>>, ds: set<nat>, b: nat, vars: map<Site, Var>, uses: map<(nat, nat), Var>, ops: map<(nat, nat, nat), Var>)
    requires AllRecorded(f, lists, ds, vars, uses, ops) && b < |f.body|
    requires Recorded(f, PhisOf(lists, f.regions), uses, vars, b) && OperandsFilled(f, PhisOf(lists, f.regions), lists, ops, vars, b)
    ensures AllRecorded(f, lists, ds + {b}, vars, uses, ops)
  {
    hide Recorded, OperandsFilled, PhisOf;
  }

  lemma AboveNothing(base: map<nat, seq<Var>>, stacks: map<nat, seq<Var>>, pushed: multiset<nat>)
    requires Above(base, stacks, pushed) && pushed == multiset{}
    ensures stacks == base
  {
    forall r | r in base ensures stacks[r] == base[r] {
      assert stacks[r] == stacks[r][..|base[r]|];
    }
  }

  lemma {:induction false} ChisGrow(accesses: seq<Access>, i: nat, j: nat)
    requires i <= j <= |accesses|
    ensures Chis(accesses, i) <= Chis(accesses, j)
  {
    if i < j {
      ChisGrow(accesses, i, j - 1);
    }
  }

  // Everything recorded for the blocks "ds" is right.
  ghost predicate AllRecorded(f: Fun, lists: seq<seq<nat>>, ds: set<nat>,
                              vars: map<Site, Var>, uses: map<(nat, nat), Var>, ops: map<(nat, nat, nat), Var>)
  {
    && f.Valid() && |lists| == |f.body|
    && (forall d :: d in ds ==> d < |f.body| && Recorded(f, PhisOf(lists, f.regions), uses, vars, d))
    && (forall d :: d in ds ==> d < |f.body| && OperandsFilled(f, PhisOf(lists, f.regions), lists, ops, vars, d))
  }

  // Renaming block "b" does not touch what is recorded for other blocks.
  lemma OthersStayRecorded(f: Fun, lists: seq<seq<nat>>, ds: set<nat>, b: nat,
                           vars0: map<Site, Var>, uses0: map<(nat, nat), Var>, ops0: map<(nat, nat, nat), Var>,
                           vars: map<Site, Var>, uses: map<(nat, nat), Var>, ops: map<(nat, nat, nat), Var>)
    requires AllRecorded(f, lists, ds, vars0, uses0, ops0) && b !in ds
    requires OnlyNewAt(vars0, vars, b) && OpsOnlyAt(f, ops0, ops, b)
    requires forall k :: k in uses0 && k.0 != b ==> k in uses && uses[k] == uses0[k]
    ensures AllRecorded(f, lists, ds, vars, uses, ops)
  {
    hide TreeDef, PhisOf, OutDef;
    var phis := PhisOf(lists, f.regions);
    forall d | d in ds ensures Recorded(f, phis, uses, vars, d) && OperandsFilled(f, phis, lists, ops, vars, d) {
      OtherStaysRecorded(f, phis, d, b, vars0, uses0, vars, uses);
      OtherStaysFilled(f, phis, lists, d, b, vars0, ops0, vars, ops);
    }
  }

  lemma OtherStaysRecorded(f: Fun, phis: Phis, d: nat, b: nat,
                           vars0: map<Site, Var>, uses0: map<(nat, nat), Var>, vars: map<Site, Var>, uses: map<(nat, nat), Var>)
    requires f.Valid() && d < |f.body| && d != b && Recorded(f, phis, uses0, vars0, d) && OnlyNewAt(vars0, vars, b)
    requires forall k :: k in uses0 && k.0 != b ==> k in uses && uses[k] == uses0[k]
    ensures Recorded(f, phis, uses, vars, d)
  {
    hide TreeDef;
    forall i | 0 <= i < |f.body[d]| ensures RecordedAt(f, phis, uses, vars, d, i) {
      assert RecordedAt(f, phis, uses0, vars0, d, i);
    }
  }

  lemma OtherStaysFilled(f: Fun, phis: Phis, lists: seq<seq<nat>>, d: nat, b: nat,
                         vars0: map<Site, Var>, ops0: map<(nat, nat, nat), Var>, vars: map<Site, Var>, ops: map<(nat, nat, nat), Var>)
    requires f.Valid() && d < |f.body| == |lists| && d != b && OnlyNewAt(vars0, vars, b) && OpsOnlyAt(f, ops0, ops, b)
    requires OperandsFilled(f, phis, lists, ops0, vars0, d)
    ensures OperandsFilled(f, phis, lists, ops, vars, d)
  {
    hide OutDef;
    forall y, r | y in f.cfg.succ[d] && r in f.regions && y < |lists| && r in lists[y] ensures OperandFilled(f, phis, ops, vars, d, y, r) {
      assert OperandFilled(f, phis, ops0, vars0, d, y, r);
      assert d in f.cfg.pred[y];
    }
  }

  // whichPred as the source computes it.
  method FindPred(c: Cfg, x: nat, y: nat) returns (index: nat)
    requires y < |c.pred|
    ensures index == WhichPred(c, x, y)
  {
    index := 0;
    while index < |c.pred[y]|
      invariant index <= |c.pred[y]|
      invariant forall j :: 0 <= j < index ==> c.pred[y][j] != x
    {
      if x == c.pred[y][index] {
        FirstIndexIs(c.pred[y], x, index);
        return;
      }
      index := index + 1;
    }
    FirstIndexIs(c.pred[y], x, index);
  }

  lemma {:induction false} FirstIndexIs(s: seq<nat>, x: nat, k: nat)
    requires k <= |s| && (forall j :: 0 <= j < k ==> s[j] != x) && (k == |s| || s[k] == x)
    ensures FirstIndex(s, x) == k
  {
    if k > 0 {
      FirstIndexIs(s[1..], x, k - 1);
    }
  }

  // Operands that do not belong to an edge from "b" are as before.
  ghost predicate OpsOnlyAt(f: Fun, ops0: map<(nat, nat, nat), Var>, ops: map<(nat, nat, nat), Var>, b: nat) {
    forall k :: k in ops0 && (k.0 < |f.cfg.pred| ==> k.2 != WhichPred(f.cfg, b, k.0) || b !in f.cfg.pred[k.0]) ==> k in ops && ops[k] == ops0[k]
  }

  lemma OpsUnchanged(f: Fun, ops: map<(nat, nat, nat), Var>, b: nat)
    ensures OpsOnlyAt(f, ops, ops, b)
  {
  }

  // After the phis and the first "i" accesses of block "b".
  ghost predicate AccessesDone(f: Fun, lists: seq<seq<nat>>, b: nat, i: nat,
                               base: map<nat, seq<Var>>, vars0: map<Site, Var>, uses0: map<(nat, nat), Var>,
                               stacks: map<nat, seq<Var>>, vars: map<Site, Var>, uses: map<(nat, nat), Var>)
  {
    && f.Valid() && |lists| == |f.body| && b < |f.body| && i <= |f.body[b]|
    && Tops(f, PhisOf(lists, f.regions), stacks, b, i)
    && Above(base, stacks, multiset(lists[b]) + Chis(f.body[b], i))
    && AccessVars(lists[b], b, i, vars0, vars)
    && AccessUses(f, PhisOf(lists, f.regions), b, i, uses0, uses, vars)
  }

  ghost predicate AccessVars(list: seq<nat>, b: nat, i: nat, vars0: map<Site, Var>, vars: map<Site, Var>) {
    && OnlyNewAt(vars0, vars, b)
    && (forall s :: s in vars && s.ChiAt? && s.block == b ==> s.index < i)
    && (forall r :: r in list ==> Phi(b, r) in vars)
  }

  ghost predicate AccessUses(f: Fun, phis: Phis, b: nat, i: nat, uses0: map<(nat, nat), Var>, uses: map<(nat, nat), Var>, vars: map<Site, Var>)
    requires f.Valid() && b < |f.body| && i <= |f.body[b]|
  {
    && (forall j :: 0 <= j < i ==> RecordedAt(f, phis, uses, vars, b, j))
    && (forall k :: k in uses0 && k.0 != b ==> k in uses && uses[k] == uses0[k])
  }

  lemma AccessTop(f: Fun, lists: seq<seq<nat>>, b: nat, i: nat,
                  base: map<nat, seq<Var>>, vars0: map<Site, Var>, uses0: map<(nat, nat), Var>,
                  stacks: map<nat, seq<Var>>, vars: map<Site, Var>, uses: map<(nat, nat), Var>)
    requires AccessesDone(f, lists, b, i, base, vars0, uses0, stacks, vars, uses) && i < |f.body[b]|
    ensures f.body[b][i].region in f.regions
    ensures TopIs(stacks, f.body[b][i].region, TreeDef(f, PhisOf(lists, f.regions), b, i, f.body[b][i].region))
    ensures ChiAt(b, i) !in vars
  {
    hide TreeDef;
  }

  lemma TopsStep(f: Fun, phis: Phis, stacks: map<nat, seq<Var>>, stacks': map<nat, seq<Var>>, b: nat, i: nat)
    requires f.Valid() && b < |f.body| && i < |f.body[b]| && Tops(f, phis, stacks, b, i)
    requires stacks'.Keys == stacks.Keys
    requires forall r :: r in stacks && f.body[b][i] != Chi(r) ==> stacks'[r] == stacks[r]
    requires forall r :: f.body[b][i] == Chi(r) ==> TopIs(stacks', r, ChiAt(b, i))
    ensures Tops(f, phis, stacks', b, i + 1)
  {
    forall r | r in f.regions ensures TopIs(stacks', r, TreeDef(f, phis, b, i + 1, r)) {
      assert TopIs(stacks, r, TreeDef(f, phis, b, i, r));
    }
  }

  lemma UsesStep(f: Fun, phis: Phis, b: nat, i: nat, uses0: map<(nat, nat), Var>, uses: map<(nat, nat), Var>, uses': map<(nat, nat), Var>,
                 vars: map<Site, Var>, vars': map<Site, Var>, v: Var)
    requires f.Valid() && b < |f.body| && i < |f.body[b]| && AccessUses(f, phis, b, i, uses0, uses, vars)
    requires uses' == uses[(b, i) := v] && (forall s :: s in vars ==> s in vars' && vars'[s] == vars[s])
    requires v.site == TreeDef(f, phis, b, i, f.body[b][i].region) && v.site in vars && vars[v.site] == v
    requires f.body[b][i].Chi? ==> ChiAt(b, i) in vars'
    ensures AccessUses(f, phis, b, i + 1, uses0, uses', vars')
  {
    hide TreeDef;
    forall j | 0 <= j < i + 1 ensures RecordedAt(f, phis, uses', vars', b, j) {
      if j < i {
        assert RecordedAt(f, phis, uses, vars, b, j);
      }
    }
  }

  lemma MuDone(f: Fun, lists: seq<seq<nat>>, b: nat, i: nat,
               base: map<nat, seq<Var>>, vars0: map<Site, Var>, uses0: map<(nat, nat), Var>,
               stacks: map<nat, seq<Var>>, vars: map<Site, Var>, uses: map<(nat, nat), Var>, uses': map<(nat, nat), Var>)
    requires AccessesDone(f, lists, b, i, base, vars0, uses0, stacks, vars, uses) && i < |f.body[b]| && f.body[b][i].Mu?
    requires (b, i) in uses' && uses' == uses[(b, i) := uses'[(b, i)]]
    requires var v := uses'[(b, i)];
             v.site == TreeDef(f, PhisOf(lists, f.regions), b, i, f.body[b][i].region) && v.site in vars && vars[v.site] == v
    ensures AccessesDone(f, lists, b, i + 1, base, vars0, uses0, stacks, vars, uses')
  {
    hide TreeDef, Above, AccessUses, Tops, Fun.Valid, PhisOf;
    TopsStep(f, PhisOf(lists, f.regions), stacks, stacks, b, i);
    UsesStep(f, PhisOf(lists, f.regions), b, i, uses0, uses, uses', vars, vars, uses'[(b, i)]);
    assert Chis(f.body[b], i + 1) == Chis(f.body[b], i);
  }

  lemma ChiDone(f: Fun, lists: seq<seq<nat>>, b: nat, i: nat,
                base: map<nat, seq<Var>>, vars0: map<Site, Var>, uses0: map<(nat, nat), Var>,
                vars: map<Site, Var>, counters: map<nat, nat>, stacks: map<nat, seq<Var>>, uses: map<(nat, nat), Var>,
                vars': map<Site, Var>, counters': map<nat, nat>, stacks': map<nat, seq<Var>>, uses': map<(nat, nat), Var>)
    requires AccessesDone(f, lists, b, i, base, vars0, uses0, stacks, vars, uses) && i < |f.body[b]| && f.body[b][i].Chi?
    requires PushesOne(f, vars, counters, stacks, vars', counters', stacks', ChiAt(b, i))
    requires (b, i) in uses' && uses' == uses[(b, i) := uses'[(b, i)]]
    requires var v := uses'[(b, i)];
             v.site == TreeDef(f, PhisOf(lists, f.regions), b, i, f.body[b][i].region) && v.site in vars && vars[v.site] == v
    ensures AccessesDone(f, lists, b, i + 1, base, vars0, uses0, stacks', vars', uses')
  {
    hide TreeDef, Above, AccessUses, Tops, Fun.Valid, PhisOf;
    var r := f.body[b][i].region;
    TopsStep(f, PhisOf(lists, f.regions), stacks, stacks', b, i);
    UsesStep(f, PhisOf(lists, f.regions), b, i, uses0, uses, uses', vars, vars', uses'[(b, i)]);
    AbovePush(base, stacks, stacks', multiset(lists[b]) + Chis(f.body[b], i), r, Var(ChiAt(b, i), counters[r]));
    OneMoreChi(lists[b], f.body[b], i, r);
  }

  lemma OneMoreChi(phis: seq<nat>, body: seq<Access>, i: nat, r: nat)
    requires i < |body| && body[i] == Access.Chi(r)
    ensures multiset(phis) + Chis(body, i + 1) == multiset(phis) + Chis(body, i) + multiset{r}
  {
  }

  lemma AbovePush(base: map<nat, seq<Var>>, stacks: map<nat, seq<Var>>, stacks': map<nat, seq<Var>>, pushed: multiset<nat>, r: nat, v: Var)
    requires Above(base, stacks, pushed) && r in stacks && stacks' == stacks[r := stacks[r] + [v]]
    ensures Above(base, stacks', pushed + multiset{r})
  {
  }

  // Versions defined since "vars0" belong to block "b", and no version has been redefined.
  ghost predicate OnlyNewAt(vars0: map<Site, Var>, vars: map<Site, Var>, b: nat) {
    && (forall s :: s in vars0 ==> s in vars && vars[s] == vars0[s])
    && (forall s :: s in vars && s !in vars0 ==> !s.EntryChi? && s.block == b)
  }

  // After the first "k" phis of block "b".
  ghost predicate PhisDone(list: seq<nat>, k: nat, b: nat, base: map<nat, seq<Var>>, vars0: map<Site, Var>,
                           stacks: map<nat, seq<Var>>, vars: map<Site, Var>)
  {
    k <= |list| && PhiStacks(list[..k], b, base, stacks) && PhiVars(list[..k], b, vars0, vars)
  }

  ghost predicate PhiStacks(list: seq<nat>, b: nat, base: map<nat, seq<Var>>, stacks: map<nat, seq<Var>>) {
    && Above(base, stacks, multiset(list))
    && (forall r :: r in base && r !in list ==> stacks[r] == base[r])
    && (forall r :: r in base && r in list ==> TopIs(stacks, r, Phi(b, r)))
  }

  ghost predicate PhiVars(list: seq<nat>, b: nat, vars0: map<Site, Var>, vars: map<Site, Var>) {
    && OnlyNewAt(vars0, vars, b)
    && (forall s :: s in vars && s !in vars0 ==> s.Phi? && s.region in list)
    && (forall r :: r in list ==> Phi(b, r) in vars)
  }

  lemma NoPhiDone(list: seq<nat>, b: nat, stacks: map<nat, seq<Var>>, vars: map<Site, Var>)
    ensures PhisDone(list, 0, b, stacks, vars, stacks, vars)
  {
  }

  lemma NextPhiIsNew(list: seq<nat>, k: nat, b: nat, base: map<nat, seq<Var>>, vars0: map<Site, Var>,
                     stacks: map<nat, seq<Var>>, vars: map<Site, Var>)
    requires k < |list| && NoDuplicates(list) && PhisDone(list, k, b, base, vars0, stacks, vars)
    requires forall s :: s in vars0 ==> s.EntryChi? || s.block != b
    ensures Phi(b, list[k]) !in vars
  {
    forall j | 0 <= j < k ensures list[..k][j] != list[k] {
    }
  }

  lemma PhiDone(f: Fun, list: seq<nat>, k: nat, b: nat, base: map<nat, seq<Var>>, vars0: map<Site, Var>,
                vars: map<Site, Var>, counters: map<nat, nat>, stacks: map<nat, seq<Var>>,
                vars': map<Site, Var>, counters': map<nat, nat>, stacks': map<nat, seq<Var>>)
    requires k < |list| && PhisDone(list, k, b, base, vars0, stacks, vars)
    requires PushesOne(f, vars, counters, stacks, vars', counters', stacks', Phi(b, list[k]))
    ensures PhisDone(list, k + 1, b, base, vars0, stacks', vars')
  {
    hide PhiStacks, PhiVars, NoDuplicates;
    assert list[..k + 1] == list[..k] + [list[k]];
    PhiStackStep(list[..k], list[k], b, base, stacks, stacks', Var(Phi(b, list[k]), counters[list[k]]));
    PhiVarStep(list[..k], list[k], b, vars0, vars, vars', Var(Phi(b, list[k]), counters[list[k]]));
  }

  lemma PhiStackStep(list: seq<nat>, r: nat, b: nat, base: map<nat, seq<Var>>, stacks: map<nat, seq<Var>>, stacks': map<nat, seq<Var>>, v: Var)
    requires PhiStacks(list, b, base, stacks) && r in stacks && v.site == Phi(b, r) && stacks' == stacks[r := stacks[r] + [v]]
    ensures PhiStacks(list + [r], b, base, stacks')
  {
    assert multiset(list + [r]) == multiset(list) + multiset{r};
    assert forall q :: q in list + [r] <==> q in list || q == r;
    AbovePush(base, stacks, stacks', multiset(list), r, v);
    hide Above;
  }

  lemma PhiVarStep(list: seq<nat>, r: nat, b: nat, vars0: map<Site, Var>, vars: map<Site, Var>, vars': map<Site, Var>, v: Var)
    requires PhiVars(list, b, vars0, vars) && Phi(b, r) !in vars && vars' == vars[Phi(b, r) := v]
    ensures PhiVars(list + [r], b, vars0, vars')
  {
    assert forall q :: q in list + [r] <==> q in list || q == r;
  }

  lemma AllPhisDone(f: Fun, lists: seq<seq<nat>>, b: nat, base: map<nat, seq<Var>>, vars0: map<Site, Var>,
                    stacks: map<nat, seq<Var>>, vars: map<Site, Var>)
    requires f.Valid() && |lists| == |f.body| && b < |f.body| && base.Keys == f.regions
    requires TopsIn(f, PhisOf(lists, f.regions), base, b)
    requires PhisDone(lists[b], |lists[b]|, b, base, vars0, stacks, vars)
    ensures Tops(f, PhisOf(lists, f.regions), stacks, b, 0)
  {
    var phis := PhisOf(lists, f.regions);
    assert lists[b][..|lists[b]|] == lists[b];
    forall r | r in f.regions ensures TopIs(stacks, r, TreeDef(f, phis, b, 0, r)) {
      assert HasPhi(phis, b, r) <==> r in lists[b];
      assert TopIs(base, r, InDef(f, phis, b, r));
    }
  }
}
