// What is reported: for every collective call the conditions it depends on, if sequences differ
// there and the condition is tainted. Some warning is given exactly if there is a difference.
module Warnings {
  import opened Sequences
  import opened CollectiveLists
  import opened CollectiveRuns
  import opened CollectiveMeaning
  import opened CollectiveAnalysis
  import opened CallConditions
  import opened Divergence
  import opened PostDominance

  // The lists of all blocks, for each communicator.
  type AllLists = map<Option<nat>, map<nat, CollectiveList>>

  // The communicator of a call, if it is given one.
  function CommOf(i: Instr): Option<nat>
    requires i.CallCollective?
  {
    if i.mpi then i.comm else None
  }

  // Lists for another communicator are not looked at.
  predicate Concerns(i: Instr, comm: Option<nat>)
    requires i.CallCollective?
  {
    CommOf(i) == None || comm == CommOf(i)
  }

  // The mark is at the front of the block's list for some communicator that concerns the call.
  ghost predicate HasNavs(lists: AllLists, i: Instr, x: nat)
    requires i.CallCollective?
  {
    exists comm :: comm in lists && Concerns(i, comm) && x in lists[comm] && IsNavs(lists[comm][x])
  }

  method LooksMarked(lists: AllLists, i: Instr, x: nat) returns (navs: bool)
    requires i.CallCollective? && forall comm :: comm in lists ==> x in lists[comm]
    ensures navs <==> HasNavs(lists, i, x)
  {
    navs := false;
    var todo := lists.Keys;
    while todo != {}
      invariant todo <= lists.Keys
      invariant navs <==> exists comm :: comm in lists.Keys - todo && Concerns(i, comm) && IsNavs(lists[comm][x])
    {
      var comm :| comm in todo;
      todo := todo - {comm};
      if Concerns(i, comm) {
        navs := navs || IsNavs(lists[comm][x]);
      }
    }
  }

  // What the warnings are made of: the program, its functions' views and call sites, all lists, and
  // the blocks whose condition is tainted.
  datatype Input = Input(p: Program, views: seq<View>, callers: map<nat, seq<Site>>, lists: AllLists, tainted: set<nat>) {

    ghost predicate Valid() {
      IsSetup(p, views, callers) && forall comm, b :: comm in lists && b in p.succ ==> b in lists[comm]
    }

    predicate IsInstr(s: Site) {
      s.func < |p.funcs| && s.block in p.funcs[s.func] && s.block in p.code && s.index < |p.code[s.block]|
    }

    predicate IsDirectCall(s: Site) {
      IsInstr(s) && p.code[s.block][s.index].CallCollective?
    }

    // The condition of block "x" is reported with the call.
    ghost predicate IsCondition(s: Site, x: nat) {
      && IsDirectCall(s) && DependsOn(views, callers, s, x)
      && HasNavs(lists, p.code[s.block][s.index], x) && x in tainted
    }

    ghost predicate HasConditions(s: Site, conditions: set<nat>) {
      forall x :: x in conditions <==> IsCondition(s, x)
    }

    // Warnings have conditions, and these are all conditions of their calls.
    ghost predicate Justified(warnings: map<Site, set<nat>>) {
      forall s :: s in warnings ==> warnings[s] != {} && HasConditions(s, warnings[s])
    }

    // A call without a warning has no conditions.
    ghost predicate Checked(warnings: map<Site, set<nat>>, s: Site) {
      s in warnings || HasConditions(s, {})
    }

    ghost predicate BlockChecked(warnings: map<Site, set<nat>>, f: nat, b: nat) {
      forall k: nat :: Checked(warnings, Site(f, b, k))
    }

    ghost predicate FunctionChecked(warnings: map<Site, set<nat>>, f: nat) {
      forall b: nat :: BlockChecked(warnings, f, b)
    }
  }

  lemma StillChecked(job: Input, before: map<Site, set<nat>>, after: map<Site, set<nat>>)
    requires before.Keys <= after.Keys
    ensures forall s :: job.Checked(before, s) ==> job.Checked(after, s)
    ensures forall f, b :: job.BlockChecked(before, f, b) ==> job.BlockChecked(after, f, b)
    ensures forall f :: job.FunctionChecked(before, f) ==> job.FunctionChecked(after, f)
  {
    hide Input.HasConditions;
    forall f, b | job.BlockChecked(before, f, b) ensures job.BlockChecked(after, f, b) {
      forall k: nat ensures job.Checked(after, Site(f, b, k)) {
        assert job.Checked(before, Site(f, b, k));
      }
    }
    forall f | job.FunctionChecked(before, f) ensures job.FunctionChecked(after, f) {
      forall b: nat ensures job.BlockChecked(after, f, b) {
        assert job.BlockChecked(before, f, b);
      }
    }
  }

  // What is no instruction has no conditions.
  lemma NoInstr(job: Input, warnings: map<Site, set<nat>>, s: Site)
    requires !job.IsInstr(s)
    ensures job.Checked(warnings, s)
  {
  }

  lemma DependsOnBlocks(job: Input, s: Site, x: nat)
    requires job.Valid() && DependsOn(job.views, job.callers, s, x)
    ensures x in job.p.succ
  {
    var t :| CallsLead(job.callers, s, t) && ControlsSite(job.views, t, x);
    var v := job.views[t.func];
    assert Shows(job.p, t.func, v);
    ControlsIsBlock(v, t.block, x);
  }

  lemma SitesAreOk(job: Input, s: Site)
    requires job.Valid() && job.IsDirectCall(s)
    ensures SiteOk(job.views, s) && forall f, t :: t in CallersOf(job.callers, f) ==> SiteOk(job.views, t)
  {
    assert Shows(job.p, s.func, job.views[s.func]);
    forall f, t | t in CallersOf(job.callers, f) ensures SiteOk(job.views, t) {
      assert CallsFunction(job.p, t, f);
      assert Shows(job.p, t.func, job.views[t.func]);
    }
  }

  // Every block of a function has code.
  lemma BlocksHaveCode(job: Input, f: nat)
    requires job.Valid() && f < |job.p.funcs|
    ensures forall b :: b in job.p.funcs[f] ==> b in job.p.code
  {
    assert Shows(job.p, f, job.views[f]);
    assert forall b :: b in job.p.funcs[f] ==> b in Members(job.p.funcs[f]);
  }

  // The conditions reported with one call.
  method CheckCall(job: Input, pdts: seq<Frontiers>, s: Site) returns (conditions: set<nat>)
    requires job.Valid() && Prepared(job.views, pdts) && job.IsDirectCall(s)
    modifies pdts
    ensures Prepared(job.views, pdts) && job.HasConditions(s, conditions)
  {
    hide Prepared, DependsOn, HasNavs, IsSetup;
    SitesAreOk(job, s);
    var ipdf := CallInterIpdf(job.views, pdts, job.callers, s);
    conditions := {};
    var todo := ipdf;
    while todo != {}
      invariant Prepared(job.views, pdts) && todo <= ipdf
      invariant forall x :: x in conditions <==> x in ipdf - todo && job.IsCondition(s, x)
    {
      var x :| x in todo;
      todo := todo - {x};
      DependsOnBlocks(job, s, x);
      var navs := LooksMarked(job.lists, job.p.code[s.block][s.index], x);
      if navs && x in job.tainted {
        conditions := conditions + {x};
      }
    }
  }

  class Checker {
    const job: Input
    const pdts: seq<Frontiers>
    var warnings: map<Site, set<nat>>

    constructor (job: Input, pdts: seq<Frontiers>)
      requires job.Valid() && Prepared(job.views, pdts)
      ensures Inv() && this.job == job && this.pdts == pdts && warnings == map[]
    {
      this.job, this.pdts, warnings := job, pdts, map[];
    }

    ghost predicate Inv()
      reads this, pdts
    {
      job.Valid() && Prepared(job.views, pdts) && job.Justified(warnings)
    }

    // One instruction.
    method CheckInstr(s: Site)
      requires Inv() && job.IsInstr(s)
      modifies this`warnings, pdts
      ensures Inv() && old(warnings.Keys) <= warnings.Keys && job.Checked(warnings, s)
    {
      hide Prepared, Input.Valid, Input.IsCondition;
      if job.p.code[s.block][s.index].CallCollective? {
        var conditions := CheckCall(job, pdts, s);
        if conditions != {} {
          warnings := warnings[s := conditions];
        }
      } else {
        assert job.HasConditions(s, {}) by {
          NoCall(s);
        }
      }
    }

    lemma NoCall(s: Site)
      requires !job.IsDirectCall(s)
      ensures job.HasConditions(s, {})
    {
    }

    // All instructions of a block.
    method CheckBlock(f: nat, b: nat)
      requires Inv() && f < |job.p.funcs| && b in job.p.funcs[f] && b in job.p.code
      modifies this`warnings, pdts
      ensures Inv() && old(warnings.Keys) <= warnings.Keys && job.BlockChecked(warnings, f, b)
    {
      hide Inv, Input.Checked;
      for k := 0 to |job.p.code[b]|
        invariant Inv() && old(warnings.Keys) <= warnings.Keys
        invariant forall l: nat :: l < k ==> job.Checked(warnings, Site(f, b, l))
      {
        ghost var before := warnings;
        CheckInstr(Site(f, b, k));
        StillChecked(job, before, warnings);
      }
      forall k: nat ensures job.Checked(warnings, Site(f, b, k)) {
        if k >= |job.p.code[b]| {
          NoInstr(job, warnings, Site(f, b, k));
        }
      }
    }

    // All blocks of a function.
    method CheckFunction(f: nat)
      requires Inv() && f < |job.p.funcs|
      modifies this`warnings, pdts
      ensures Inv() && old(warnings.Keys) <= warnings.Keys && job.FunctionChecked(warnings, f)
    {
      hide Inv, Input.BlockChecked, Input.FunctionChecked;
      var blocks := job.p.funcs[f];
      HasCode(f);
      for i := 0 to |blocks|
        invariant Inv() && old(warnings.Keys) <= warnings.Keys
        invariant forall j :: 0 <= j < i ==> job.BlockChecked(warnings, f, blocks[j])
      {
        ghost var before := warnings;
        CheckBlock(f, blocks[i]);
        StillChecked(job, before, warnings);
      }
      NoOtherBlocks(f);
    }

    lemma HasCode(f: nat)
      requires Inv() && f < |job.p.funcs|
      ensures forall b :: b in job.p.funcs[f] ==> b in job.p.code
    {
      BlocksHaveCode(job, f);
    }

    lemma NoOtherBlocks(f: nat)
      requires f < |job.p.funcs|
      requires forall j :: 0 <= j < |job.p.funcs[f]| ==> job.BlockChecked(warnings, f, job.p.funcs[f][j])
      ensures job.FunctionChecked(warnings, f)
    {
      hide Input.Checked;
      forall b: nat ensures job.BlockChecked(warnings, f, b) {
        if b !in job.p.funcs[f] {
          forall k: nat ensures job.Checked(warnings, Site(f, b, k)) {
            NoInstr(job, warnings, Site(f, b, k));
          }
        }
      }
    }

    // All functions: the calls reported are those that have conditions, with all these.
    method Run()
      requires Inv()
      modifies this`warnings, pdts
      ensures Inv()
      ensures forall s :: s in warnings <==> exists x :: job.IsCondition(s, x)
      ensures forall s :: s in warnings ==> job.HasConditions(s, warnings[s])
    {
      hide Inv, Input.FunctionChecked, Input.HasConditions, Input.IsCondition;
      for f := 0 to |job.p.funcs|
        invariant Inv()
        invariant forall g: nat :: g < f ==> job.FunctionChecked(warnings, g)
      {
        ghost var before := warnings;
        CheckFunction(f);
        StillChecked(job, before, warnings);
      }
      forall s ensures s in warnings <==> exists x :: job.IsCondition(s, x)
               ensures s in warnings ==> job.HasConditions(s, warnings[s])
      {
        EverySiteChecked(s);
      }
    }

    lemma EverySiteChecked(s: Site)
      requires Inv() && forall g: nat :: g < |job.p.funcs| ==> job.FunctionChecked(warnings, g)
      ensures s in warnings <==> exists x :: job.IsCondition(s, x)
      ensures s in warnings ==> job.HasConditions(s, warnings[s])
    {
      assert job.Justified(warnings);
      hide Prepared, Input.Valid;
      assert job.Checked(warnings, s) by {
        if s.func < |job.p.funcs| {
          assert job.FunctionChecked(warnings, s.func) && job.BlockChecked(warnings, s.func, s.block);
          assert job.Checked(warnings, Site(s.func, s.block, s.index));
        } else {
          NoInstr(job, warnings, s);
        }
      }
      hide Input.IsCondition;
      if s in warnings {
        var x :| x in warnings[s];
        assert job.IsCondition(s, x);
      }
    }
  }

  /* When something is reported. */

  // All lists are those of the program, and a list is kept for every communicator that is used; the
  // list without a communicator is kept only if none is.
  ghost predicate ListsComplete(job: Input)
    requires job.Valid()
  {
    && (forall comm, b {:trigger job.lists[comm][b]} :: comm in job.lists && b in job.lists[comm] ==>
          b in job.p.succ && Correct(job.p, comm, job.lists[comm][b], b))
    && (forall b, i :: b in job.p.code && i in job.p.code[b] && i.CallCollective? && CommOf(i) != None ==> None !in job.lists)
  }

  // A call that is not ignored in the lists for a communicator is one that they concern.
  lemma CountedConcerns(job: Input, comm: Option<nat>, s: Site)
    requires job.Valid() && ListsComplete(job) && comm in job.lists && IsCollectiveCall(job.p, comm, s)
    ensures job.IsDirectCall(s) && Concerns(job.p.code[s.block][s.index], comm)
  {
    hide IsSetup;
    assert job.p.code[s.block][s.index] in job.p.code[s.block];
  }

  lemma MarkIsSeen(job: Input, comm: Option<nat>, s: Site, x: nat)
    requires job.Valid() && ListsComplete(job) && comm in job.lists && job.IsDirectCall(s)
    requires Concerns(job.p.code[s.block][s.index], comm) && x in job.p.succ && ListOf(job.p, comm, x) == [Navs]
    ensures HasNavs(job.lists, job.p.code[s.block][s.index], x)
  {
    hide Input.Valid, ListsComplete, ListOf, Ranked, Input.IsDirectCall;
    CorrectList(job, comm, x);
    assert IsNavs(job.lists[comm][x]);
  }

  lemma CorrectList(job: Input, comm: Option<nat>, x: nat)
    requires job.Valid() && ListsComplete(job) && comm in job.lists && x in job.p.succ
    ensures Ranked(job.p) && x in job.lists[comm] && job.lists[comm][x].elems == ListOf(job.p, comm, x)
  {
    assert x in job.lists[comm];
    hide ListOf, Ranked, Shows, BlockBefore;
    assert Correct(job.p, comm, job.lists[comm][x], x);
  }

  lemma MarkedIsBlock(p: Program, comm: Option<nat>, way: seq<nat>)
    requires Ranked(p) && LeadsToMark(p, comm, way)
    ensures way != [] && way[|way| - 1] in p.succ && ListOf(p, comm, way[|way| - 1]) == [Navs]
  {
  }

  // If sequences differ somewhere, there is a block ahead where they part, and a collective call with
  // which its condition is reported if it is tainted.
  lemma DifferenceIsReported(job: Input, comm: Option<nat>, b: nat) returns (way: seq<nat>, call: Site)
    requires job.Valid() && ListsComplete(job) && comm in job.lists && b in job.p.succ && Differ(Runs(job.p, comm, b))
    ensures LeadsToMark(job.p, comm, way) && way[0] == b
    ensures way[|way| - 1] in job.tainted ==> job.IsCondition(call, way[|way| - 1])
  {
    assert IsSetup(job.p, job.views, job.callers) && Ranked(job.p);
    hide Ranked, IsSetup, Input.Valid, ListsComplete, Runs, Differ, DependsOn, HasNavs, IsCollectiveCall, ListOf;
    way, call := DifferenceIsCovered(job.p, comm, job.views, job.callers, b);
    MarkedIsBlock(job.p, comm, way);
    CountedConcerns(job, comm, call);
    MarkIsSeen(job, comm, call, way[|way| - 1]);
  }

  // What is reported is a block from which sequences differ, for the communicator that the call is
  // given if it is one of MPI's and is given one.
  lemma ConditionDiffers(job: Input, s: Site, x: nat) returns (comm: Option<nat>)
    requires job.Valid() && ListsComplete(job) && job.IsCondition(s, x)
    ensures comm in job.lists && x in job.p.succ && Differ(Runs(job.p, comm, x))
    ensures var i := job.p.code[s.block][s.index]; i.mpi && i.comm.Some? ==> comm == i.comm
  {
    comm :| comm in job.lists && Concerns(job.p.code[s.block][s.index], comm) && x in job.lists[comm] && IsNavs(job.lists[comm][x]);
    assert Correct(job.p, comm, job.lists[comm][x], x);
    hide Valid, ListOf, Runs, FrontOf;
    UnnoticedIff(job.p, comm, x, job.lists[comm][x]);
  }

  lemma InputIsRanked(job: Input)
    requires job.Valid()
    ensures Ranked(job.p)
  {
  }

  // With all conditions tainted there is a warning exactly if somewhere, for some communicator, two
  // sequences differ.
  lemma WarnedIffDifferent(job: Input)
    requires job.Valid() && ListsComplete(job) && job.p.succ.Keys <= job.tainted
    ensures (exists s, x :: job.IsCondition(s, x)) <==>
            (exists comm, b :: comm in job.lists && b in job.p.succ && Differ(Runs(job.p, comm, b)))
  {
    hide Input.Valid, ListsComplete, Input.IsCondition, Differ, Runs, Ranked;
    InputIsRanked(job);
    if s, x :| job.IsCondition(s, x) {
      var comm := ConditionDiffers(job, s, x);
    }
    if comm, b :| comm in job.lists && b in job.p.succ && Differ(Runs(job.p, comm, b)) {
      var way, call := DifferenceIsReported(job, comm, b);
    }
  }
}
