// The list of every block as a function of the program, what it means, and what its front element
// tells.
module CollectiveMeaning {
  import opened Sequences
  import opened CollectiveLists
  import opened CollectiveRuns

  // The elements one instruction contributes.
  ghost function InstrList(p: Program, comm: Option<nat>, i: Instr, limit: nat): seq<Element>
    requires Ranked(p)
    requires i.CallFunction? && i.entry in p.succ ==> p.rank[i.entry] < limit
    decreases limit, 0
  {
    match i
    case CallCollective(name, _, _) => if ShouldIgnore(i, comm) then [] else [Coll(name)]
    case CallFunction(entry) => if entry in p.succ then ListOf(p, comm, entry) else []
    case Other => []
  }

  ghost function CodeList(p: Program, comm: Option<nat>, code: seq<Instr>, limit: nat): seq<Element>
    requires Ranked(p)
    requires forall i :: i in code && i.CallFunction? && i.entry in p.succ ==> p.rank[i.entry] < limit
    decreases limit, 1, |code|
  {
    if code == [] then [] else
      CodeList(p, comm, code[..|code| - 1], limit) + InstrList(p, comm, code[|code| - 1], limit)
  }

  // The mark where successors differ; else the block's own elements and the list of its successors.
  ghost function ListOf(p: Program, comm: Option<nat>, b: nat): seq<Element>
    requires Ranked(p) && b in p.succ
    decreases p.rank[b], 2, 0
  {
    if !AdjacentSame(NeighbourLists(p, comm, b)) then [Navs]
    else CodeList(p, comm, p.code[b], p.rank[b]) + OnwardList(p, comm, b)
  }

  ghost function OnwardList(p: Program, comm: Option<nat>, b: nat): seq<Element>
    requires Ranked(p) && b in p.succ
    decreases p.rank[b], 1, 0
  {
    if p.succ[b] == [] then [] else NeighbourLists(p, comm, b)[0]
  }

  ghost function NeighbourLists(p: Program, comm: Option<nat>, b: nat): (r: seq<seq<Element>>)
    requires Ranked(p) && b in p.succ
    ensures |r| == |p.succ[b]|
    ensures forall i :: 0 <= i < |r| ==> p.succ[b][i] in p.succ && r[i] == ListOf(p, comm, p.succ[b][i])
    decreases p.rank[b], 0, 0
  {
    var ss := p.succ[b];
    assert forall i :: 0 <= i < |ss| ==> ss[i] in p.succ[b];
    seq(|ss|, i requires 0 <= i < |ss| => ListOf(p, comm, ss[i]))
  }

  /* The lists mean what is issued. */

  lemma {:induction false} CodeListMeans(p: Program, comm: Option<nat>, code: seq<Instr>, limit: nat)
    requires Ranked(p)
    requires forall i :: i in code && i.CallFunction? && i.entry in p.succ ==> p.rank[i.entry] < limit
    ensures Means(CodeList(p, comm, code, limit), CodeRuns(p, comm, code, limit))
    decreases limit, 1, |code|
  {
    hide Ranked, Means;
    if code == [] {
      NothingMeans();
    } else {
      var init, last := code[..|code| - 1], code[|code| - 1];
      assert last in code;
      CodeListMeans(p, comm, init, limit);
      InstrListMeans(p, comm, last, limit);
      MeansConcat(CodeList(p, comm, init, limit), CodeRuns(p, comm, init, limit),
                  InstrList(p, comm, last, limit), InstrRuns(p, comm, last, limit));
    }
  }

  lemma NothingMeans()
    ensures Means([], iset{[]})
  {
    assert Names([]) == [];
  }

  lemma {:induction false} InstrListMeans(p: Program, comm: Option<nat>, i: Instr, limit: nat)
    requires Ranked(p)
    requires i.CallFunction? && i.entry in p.succ ==> p.rank[i.entry] < limit
    ensures Means(InstrList(p, comm, i, limit), InstrRuns(p, comm, i, limit))
    decreases limit, 0
  {
    hide Ranked;
    NothingMeans();
    if i.CallFunction? && i.entry in p.succ {
      ListMeans(p, comm, i.entry);
    } else if i.CallCollective? {
      assert Names([Coll(i.name)]) == [i.name];
    }
  }

  lemma ListUnfolds(p: Program, comm: Option<nat>, b: nat)
    requires Ranked(p) && b in p.succ
    ensures ListOf(p, comm, b) ==
      if !AdjacentSame(NeighbourLists(p, comm, b)) then [Navs]
      else CodeList(p, comm, p.code[b], p.rank[b]) + OnwardList(p, comm, b)
  {
  }

  // The list of a block means the sequences issued from it to the end of the function.
  lemma {:induction false} ListMeans(p: Program, comm: Option<nat>, b: nat)
    requires Ranked(p) && b in p.succ
    ensures Means(ListOf(p, comm, b), Runs(p, comm, b))
    decreases p.rank[b], 2, 0
  {
    CodeListMeans(p, comm, p.code[b], p.rank[b]);
    OnwardListMeans(p, comm, b);
    var own, code, onward := CodeList(p, comm, p.code[b], p.rank[b]), CodeRuns(p, comm, p.code[b], p.rank[b]), Onward(p, comm, b);
    RunsOf(p, comm, b);
    ListUnfolds(p, comm, b);
    hide Ranked, Means, Differ, Concat, CodeRuns, CodeList, Onward, OnwardList, Runs, ListOf, AdjacentSame;
    if AdjacentSame(NeighbourLists(p, comm, b)) {
      MeansConcat(own, code, OnwardList(p, comm, b), onward);
    } else {
      SomethingIn(own, code);
      DifferIsSomething(onward);
      ConcatDiffers(code, onward);
      MarkMeans(Runs(p, comm, b));
    }
  }

  lemma {:induction false} OnwardListMeans(p: Program, comm: Option<nat>, b: nat)
    requires Ranked(p) && b in p.succ
    ensures if AdjacentSame(NeighbourLists(p, comm, b)) then Means(OnwardList(p, comm, b), Onward(p, comm, b))
            else Differ(Onward(p, comm, b))
    decreases p.rank[b], 1, 0
  {
    var ss := p.succ[b];
    var ls, ws := NeighbourLists(p, comm, b), NeighbourRuns(p, comm, b);
    assert Onward(p, comm, b) == if ss == [] then iset{[]} else Union(ws);
    assert OnwardList(p, comm, b) == if ss == [] then [] else ls[0];
    forall i | 0 <= i < |ls| ensures Means(ls[i], ws[i]) {
      assert ss[i] in p.succ[b];
      ListMeans(p, comm, ss[i]);
    }
    hide Ranked, Means, Union, Onward, OnwardList;
    NothingMeans();
    if ss != [] {
      UnionMeans(ls, ws);
    }
  }

  lemma SomethingIn(es: seq<Element>, a: Words)
    requires Means(es, a)
    ensures exists w :: w in a
  {
    MeansUniform(es, a);
  }

  lemma DifferIsSomething(a: Words)
    requires Differ(a)
    ensures exists w :: w in a
  {
  }

  lemma MarkMeans(a: Words)
    requires Differ(a)
    ensures Means([Navs], a)
  {
    assert ![Navs][0].Coll?;
  }

  /* What the front element tells. Only the front is looked at when a list is tested for the mark. */

  // Nothing is issued, a collective comes first, or a difference is met first.
  datatype Front = Silent | First(name: string) | Differs

  ghost function InstrFront(p: Program, comm: Option<nat>, i: Instr, limit: nat): Front
    requires Ranked(p)
    requires i.CallFunction? && i.entry in p.succ ==> p.rank[i.entry] < limit
    decreases limit, 0
  {
    match i
    case CallCollective(name, _, _) => if ShouldIgnore(i, comm) then Silent else First(name)
    case CallFunction(entry) => if entry in p.succ then FrontOf(p, comm, entry) else Silent
    case Other => Silent
  }

  // The first instruction that is not silent decides.
  ghost function CodeFront(p: Program, comm: Option<nat>, code: seq<Instr>, limit: nat): Front
    requires Ranked(p)
    requires forall i :: i in code && i.CallFunction? && i.entry in p.succ ==> p.rank[i.entry] < limit
    decreases limit, 1, |code|
  {
    if code == [] then Silent else
      var init := CodeFront(p, comm, code[..|code| - 1], limit);
      if init.Silent? then InstrFront(p, comm, code[|code| - 1], limit) else init
  }

  // A branch between successors with different lists comes before anything the block issues itself;
  // then its own calls count, callees included and in order, and then its first successor.
  ghost function FrontOf(p: Program, comm: Option<nat>, b: nat): Front
    requires Ranked(p) && b in p.succ
    decreases p.rank[b], 2, 0
  {
    if !AdjacentSame(NeighbourLists(p, comm, b)) then Differs else
      var own := CodeFront(p, comm, p.code[b], p.rank[b]);
      if own.Silent? && p.succ[b] != [] then
        assert p.succ[b][0] in p.succ[b];
        FrontOf(p, comm, p.succ[b][0])
      else own
  }

  function FrontElement(es: seq<Element>): Front {
    if es == [] then Silent else
      match es[0]
      case Coll(name) => First(name)
      case Navs => Differs
      case Nested(_) => Differs
  }

  lemma {:induction false} CodeFrontIsFirst(p: Program, comm: Option<nat>, code: seq<Instr>, limit: nat)
    requires Ranked(p)
    requires forall i :: i in code && i.CallFunction? && i.entry in p.succ ==> p.rank[i.entry] < limit
    ensures CodeFront(p, comm, code, limit) == FrontElement(CodeList(p, comm, code, limit))
    decreases limit, 1, |code|
  {
    hide Ranked, ListOf, FrontOf;
    if code != [] {
      var init, last := code[..|code| - 1], code[|code| - 1];
      assert last in code;
      CodeFrontIsFirst(p, comm, init, limit);
      if last.CallFunction? && last.entry in p.succ {
        FrontIsFirst(p, comm, last.entry);
      }
    }
  }

  // The front of a block is the first element of its list.
  lemma {:induction false} FrontIsFirst(p: Program, comm: Option<nat>, b: nat)
    requires Ranked(p) && b in p.succ
    ensures FrontOf(p, comm, b) == FrontElement(ListOf(p, comm, b))
    decreases p.rank[b], 2, 0
  {
    FrontUnfolds(p, comm, b);
    ListUnfolds(p, comm, b);
    hide CodeList, CodeFront, ListOf, FrontOf;
    CodeFrontIsFirst(p, comm, p.code[b], p.rank[b]);
    if p.succ[b] != [] {
      assert p.succ[b][0] in p.succ[b];
      FrontIsFirst(p, comm, p.succ[b][0]);
    }
    hide Ranked;
  }

  /* What the front means for the sequences. */

  ghost predicate AllStartWith(a: Words, name: string) {
    forall w :: w in a ==> w != [] && w[0] == name
  }

  // No sequence issues anything, all begin with one collective, or they differ.
  ghost predicate FrontMeans(f: Front, a: Words) {
    match f
    case Silent => a == iset{[]}
    case First(name) => AllStartWith(a, name)
    case Differs => Differ(a)
  }

  lemma ConcatNothing(b: Words)
    ensures Concat(iset{[]}, b) == b
  {
    var nothing: Words := iset{[]};
    forall v | v in b ensures v in Concat(nothing, b) {
      assert [] in nothing && [] + v == v;
    }
    forall w | w in Concat(nothing, b) ensures w in b {
      var u, v :| u in nothing && v in b && w == u + v;
      assert w == v;
    }
  }

  lemma ConcatStarts(a: Words, b: Words, name: string)
    requires AllStartWith(a, name)
    ensures AllStartWith(Concat(a, b), name)
  {
  }

  lemma FrontMeansConcat(f: Front, a: Words, g: Front, b: Words)
    requires FrontMeans(f, a) && FrontMeans(g, b) && (exists u :: u in a) && (exists v :: v in b)
    ensures FrontMeans(if f.Silent? then g else f, Concat(a, b))
  {
    hide Concat, Differ, AllStartWith;
    match f {
      case Silent => ConcatNothing(b);
      case First(name) => ConcatStarts(a, b, name);
      case Differs => ConcatDiffers(a, b);
    }
  }

  lemma {:induction false} CodeFrontMeans(p: Program, comm: Option<nat>, code: seq<Instr>, limit: nat)
    requires Ranked(p)
    requires forall i :: i in code && i.CallFunction? && i.entry in p.succ ==> p.rank[i.entry] < limit
    ensures FrontMeans(CodeFront(p, comm, code, limit), CodeRuns(p, comm, code, limit))
    decreases limit, 1, |code|
  {
    hide Ranked, ListOf, FrontOf, Runs;
    if code != [] {
      var init, last := code[..|code| - 1], code[|code| - 1];
      assert last in code;
      CodeFrontMeans(p, comm, init, limit);
      CodeListMeans(p, comm, init, limit);
      InstrListMeans(p, comm, last, limit);
      SomethingIn(CodeList(p, comm, init, limit), CodeRuns(p, comm, init, limit));
      SomethingIn(InstrList(p, comm, last, limit), InstrRuns(p, comm, last, limit));
      if last.CallFunction? && last.entry in p.succ {
        FrontMeansRuns(p, comm, last.entry);
      }
      FrontMeansConcat(CodeFront(p, comm, init, limit), CodeRuns(p, comm, init, limit),
                       InstrFront(p, comm, last, limit), InstrRuns(p, comm, last, limit));
    }
  }

  lemma FrontUnfolds(p: Program, comm: Option<nat>, b: nat)
    requires Ranked(p) && b in p.succ
    ensures FrontOf(p, comm, b) ==
      if !AdjacentSame(NeighbourLists(p, comm, b)) then Differs
      else if CodeFront(p, comm, p.code[b], p.rank[b]).Silent? then OnwardFront(p, comm, b)
      else CodeFront(p, comm, p.code[b], p.rank[b])
  {
    hide Ranked, CodeFront, NeighbourLists;
  }

  // The front of a block says how the sequences from it begin.
  lemma {:induction false} FrontMeansRuns(p: Program, comm: Option<nat>, b: nat)
    requires Ranked(p) && b in p.succ
    ensures FrontMeans(FrontOf(p, comm, b), Runs(p, comm, b))
    decreases p.rank[b], 2, 0
  {
    var code, onward := CodeRuns(p, comm, p.code[b], p.rank[b]), Onward(p, comm, b);
    CodeListMeans(p, comm, p.code[b], p.rank[b]);
    OnwardListMeans(p, comm, b);
    CodeFrontMeans(p, comm, p.code[b], p.rank[b]);
    FrontUnfolds(p, comm, b);
    RunsOf(p, comm, b);
    SomethingIn(CodeList(p, comm, p.code[b], p.rank[b]), code);
    if AdjacentSame(NeighbourLists(p, comm, b)) {
      OnwardFrontMeans(p, comm, b);
      hide Ranked, Concat, Means, FrontMeans;
      SomethingIn(OnwardList(p, comm, b), onward);
      FrontMeansConcat(CodeFront(p, comm, p.code[b], p.rank[b]), code, OnwardFront(p, comm, b), onward);
    } else {
      hide Concat, Ranked;
      DifferIsSomething(onward);
      ConcatDiffers(code, onward);
    }
  }

  ghost function OnwardFront(p: Program, comm: Option<nat>, b: nat): Front
    requires Ranked(p) && b in p.succ
  {
    if p.succ[b] == [] then Silent else
      assert p.succ[b][0] in p.succ[b];
      FrontOf(p, comm, p.succ[b][0])
  }

  lemma {:induction false} OnwardFrontMeans(p: Program, comm: Option<nat>, b: nat)
    requires Ranked(p) && b in p.succ && AdjacentSame(NeighbourLists(p, comm, b))
    ensures FrontMeans(OnwardFront(p, comm, b), Onward(p, comm, b))
    decreases p.rank[b], 1, 0
  {
    var ss := p.succ[b];
    if ss != [] {
      var ls, ws := NeighbourLists(p, comm, b), NeighbourRuns(p, comm, b);
      var f := OnwardFront(p, comm, b);
      forall i | 0 <= i < |ws| ensures FrontMeans(f, ws[i]) && exists w :: w in ws[i] {
        assert ss[i] in p.succ[b] && ss[0] in p.succ[b];
        FrontMeansRuns(p, comm, ss[i]);
        ListMeans(p, comm, ss[i]);
        SomethingIn(ls[i], ws[i]);
        FrontIsFirst(p, comm, ss[i]);
        FrontIsFirst(p, comm, ss[0]);
        AllSame(ls, i);
      }
      hide Ranked, FrontOf;
      assert Onward(p, comm, b) == Union(ws);
      UnionFront(f, ws);
    }
  }

  lemma UnionFront(f: Front, ws: seq<Words>)
    requires |ws| > 0 && forall i :: 0 <= i < |ws| ==> FrontMeans(f, ws[i]) && exists w :: w in ws[i]
    ensures FrontMeans(f, Union(ws))
  {
    assert forall i :: 0 <= i < |ws| ==> ws[i] <= Union(ws);
    if f.Silent? {
      assert Union(ws) == iset{[]} by {
        assert [] in ws[0];
      }
    } else if f.Differs? {
      assert Differ(ws[0]);
    }
  }

  // The mark is at the front exactly when a difference is met first.
  lemma MarkIffDiffersFirst(p: Program, comm: Option<nat>, b: nat, l: CollectiveList)
    requires Ranked(p) && b in p.succ && l.elems == ListOf(p, comm, b)
    requires forall i :: 0 <= i < |l.elems| ==> !l.elems[i].Nested?
    ensures IsNavs(l) <==> FrontOf(p, comm, b) == Differs
  {
    FrontIsFirst(p, comm, b);
  }

  // Exactly which differences go unnoticed: those behind a collective with which all sequences from
  // the block begin and which comes before any branch whose lists differ.
  lemma UnnoticedIff(p: Program, comm: Option<nat>, b: nat, l: CollectiveList)
    requires Ranked(p) && b in p.succ && l.elems == ListOf(p, comm, b)
    requires forall i :: 0 <= i < |l.elems| ==> !l.elems[i].Nested?
    ensures IsNavs(l) ==> Differ(Runs(p, comm, b))
    ensures Differ(Runs(p, comm, b)) && !IsNavs(l) <==> Differ(Runs(p, comm, b)) && FrontOf(p, comm, b).First?
    ensures FrontOf(p, comm, b).First? ==> AllStartWith(Runs(p, comm, b), FrontOf(p, comm, b).name)
  {
    hide Ranked, ListOf, FrontOf, Runs;
    MarkIffDiffersFirst(p, comm, b, l);
    FrontMeansRuns(p, comm, b);
  }

  /* Where a difference is marked. */

  // The successors' lists are free of marks and differ.
  ghost predicate Parts(p: Program, comm: Option<nat>, b: nat)
    requires Ranked(p)
  {
    && b in p.succ && !AdjacentSame(NeighbourLists(p, comm, b))
    && forall i :: 0 <= i < |p.succ[b]| ==> NavsFree(NeighbourLists(p, comm, b)[i])
  }

  // A block leads to its successors and to the functions it calls.
  ghost predicate Leads(p: Program, a: nat, b: nat) {
    && a in p.succ && a in p.code && b in p.succ
    && (b in p.succ[a] || CallFunction(b) in p.code[a])
  }

  // A way along these to a block where the sequences part; its list is nothing but the mark.
  ghost predicate LeadsToMark(p: Program, comm: Option<nat>, way: seq<nat>)
    requires Ranked(p)
  {
    && way != [] && (forall i, j :: 0 <= i < j < |way| && j == i + 1 ==> Leads(p, way[i], way[j]))
    && Parts(p, comm, way[|way| - 1]) && ListOf(p, comm, way[|way| - 1]) == [Navs]
  }

  ghost predicate MarkAhead(p: Program, comm: Option<nat>, b: nat)
    requires Ranked(p)
  {
    exists way :: LeadsToMark(p, comm, way) && way[0] == b
  }

  lemma OneStepAhead(p: Program, comm: Option<nat>, a: nat, b: nat)
    requires Ranked(p) && Leads(p, a, b) && MarkAhead(p, comm, b)
    ensures MarkAhead(p, comm, a)
  {
    hide Ranked, ListOf, Leads, Parts;
    var way :| LeadsToMark(p, comm, way) && way[0] == b;
    var longer := [a] + way;
    forall i, j | 0 <= i < j < |longer| && j == i + 1 ensures Leads(p, longer[i], longer[j]) {
      if i > 0 {
        assert longer[i] == way[i - 1] && longer[j] == way[j - 1];
      }
    }
    assert LeadsToMark(p, comm, longer) && longer[0] == a;
  }

  // Marks among the elements of a block's own calls are those of a function it calls.
  lemma {:induction false} MarkOfCallee(p: Program, comm: Option<nat>, code: seq<Instr>, limit: nat) returns (callee: nat)
    requires Ranked(p)
    requires forall i :: i in code && i.CallFunction? && i.entry in p.succ ==> p.rank[i.entry] < limit
    requires !NavsFree(CodeList(p, comm, code, limit))
    ensures CallFunction(callee) in code && callee in p.succ && !NavsFree(ListOf(p, comm, callee))
    decreases |code|
  {
    hide Ranked, ListOf;
    var init, last := code[..|code| - 1], code[|code| - 1];
    NamesConcat(CodeList(p, comm, init, limit), InstrList(p, comm, last, limit));
    if NavsFree(CodeList(p, comm, init, limit)) {
      callee := last.entry;
    } else {
      callee := MarkOfCallee(p, comm, init, limit);
    }
  }

  // A list that is not free of marks has its mark from a block ahead.
  lemma {:induction false} MarkComesFrom(p: Program, comm: Option<nat>, b: nat)
    requires Ranked(p) && b in p.succ && !NavsFree(ListOf(p, comm, b))
    ensures MarkAhead(p, comm, b)
    decreases p.rank[b]
  {
    ListUnfolds(p, comm, b);
    if Parts(p, comm, b) {
      assert LeadsToMark(p, comm, [b]);
    } else {
      var next := NextToMark(p, comm, b);
      MarkComesFrom(p, comm, next);
      OneStepAhead(p, comm, b, next);
    }
  }

  // Where the sequences do not part the mark comes from a successor or a callee.
  lemma NextToMark(p: Program, comm: Option<nat>, b: nat) returns (next: nat)
    requires Ranked(p) && b in p.succ && !NavsFree(ListOf(p, comm, b)) && !Parts(p, comm, b)
    ensures Leads(p, b, next) && p.rank[next] < p.rank[b] && !NavsFree(ListOf(p, comm, next))
  {
    var ls := NeighbourLists(p, comm, b);
    ListUnfolds(p, comm, b);
    if i :| 0 <= i < |ls| && !NavsFree(ls[i]) {
      next := p.succ[b][i];
      assert next in p.succ[b];
    } else {
      NamesConcat(CodeList(p, comm, p.code[b], p.rank[b]), OnwardList(p, comm, b));
      next := MarkOfCallee(p, comm, p.code[b], p.rank[b]);
    }
  }

  // What a callee's sequences differ in, those of the calls around it differ in too.
  lemma {:induction false} CalleeDiffers(p: Program, comm: Option<nat>, code: seq<Instr>, limit: nat, callee: nat)
    requires Ranked(p) && CallFunction(callee) in code && callee in p.succ && Differ(Runs(p, comm, callee))
    requires forall i :: i in code && i.CallFunction? && i.entry in p.succ ==> p.rank[i.entry] < limit
    ensures Differ(CodeRuns(p, comm, code, limit))
    decreases |code|
  {
    var init, last := code[..|code| - 1], code[|code| - 1];
    assert last in code;
    CodeListMeans(p, comm, init, limit);
    InstrListMeans(p, comm, last, limit);
    SomethingIn(CodeList(p, comm, init, limit), CodeRuns(p, comm, init, limit));
    SomethingIn(InstrList(p, comm, last, limit), InstrRuns(p, comm, last, limit));
    hide Ranked, Runs, Concat, Differ;
    if last != CallFunction(callee) {
      CalleeDiffers(p, comm, init, limit, callee);
    }
    ConcatDiffers(CodeRuns(p, comm, init, limit), InstrRuns(p, comm, last, limit));
  }

  // Where sequences differ ahead they differ here.
  lemma DifferenceComesBack(p: Program, comm: Option<nat>, a: nat, b: nat)
    requires Ranked(p) && Leads(p, a, b) && Differ(Runs(p, comm, b))
    ensures Differ(Runs(p, comm, a))
  {
    var code, onward := CodeRuns(p, comm, p.code[a], p.rank[a]), Onward(p, comm, a);
    RunsOf(p, comm, a);
    CodeListMeans(p, comm, p.code[a], p.rank[a]);
    SomethingIn(CodeList(p, comm, p.code[a], p.rank[a]), code);
    OnwardListMeans(p, comm, a);
    if AdjacentSame(NeighbourLists(p, comm, a)) {
      SomethingIn(OnwardList(p, comm, a), onward);
    } else {
      DifferIsSomething(onward);
    }
    if b in p.succ[a] {
      var i :| 0 <= i < |p.succ[a]| && p.succ[a][i] == b;
      assert NeighbourRuns(p, comm, a)[i] <= Union(NeighbourRuns(p, comm, a)) == onward;
    } else {
      CalleeDiffers(p, comm, p.code[a], p.rank[a], b);
    }
    hide Ranked, Concat;
    ConcatDiffers(code, onward);
  }

  lemma {:induction false} MarkMeansDifference(p: Program, comm: Option<nat>, way: seq<nat>)
    requires Ranked(p) && LeadsToMark(p, comm, way)
    ensures way[0] in p.succ && Differ(Runs(p, comm, way[0]))
    decreases |way|
  {
    if |way| == 1 {
      ListMeans(p, comm, way[0]);
      hide Parts;
      assert ![Navs][0].Coll?;
    } else {
      var rest := way[1..];
      assert Leads(p, way[0], way[1]);
      hide Ranked, ListOf, Runs, Leads, Differ, Parts;
      forall i, j | 0 <= i < j < |rest| && j == i + 1 ensures Leads(p, rest[i], rest[j]) {
        assert rest[i] == way[i + 1] && rest[j] == way[j + 1];
      }
      MarkMeansDifference(p, comm, rest);
      DifferenceComesBack(p, comm, way[0], way[1]);
    }
  }

  // No difference goes unnoticed altogether: sequences from a block differ exactly if, along
  // successors and calls, it leads to a block where they part, whose list is nothing but the mark.
  lemma DifferenceIsMarkedAhead(p: Program, comm: Option<nat>, b: nat)
    requires Ranked(p) && b in p.succ
    ensures Differ(Runs(p, comm, b)) <==> MarkAhead(p, comm, b)
  {
    if Differ(Runs(p, comm, b)) {
      ListMeans(p, comm, b);
      MeansUniform(ListOf(p, comm, b), Runs(p, comm, b));
      MarkComesFrom(p, comm, b);
    }
    if MarkAhead(p, comm, b) {
      var way :| LeadsToMark(p, comm, way) && way[0] == b;
      MarkMeansDifference(p, comm, way);
    }
  }

  /* A program with such a block: a barrier, and then a broadcast on one of two branches only. */

  const BARRIER := CallCollective("MPI_Barrier", true, Some(0))
  const BCAST := CallCollective("MPI_Bcast", true, Some(0))

  function BarrierThenBranch(): Program {
    Program([[0, 1, 2, 3]],
            map[0 := [1], 1 := [2, 3], 2 := [], 3 := []],
            map[0 := [], 1 := [0], 2 := [1], 3 := [1]],
            map[0 := [BARRIER], 1 := [], 2 := [BCAST], 3 := []],
            map[0 := 2, 1 := 1, 2 := 0, 3 := 0])
  }

  lemma OneCall(p: Program, comm: Option<nat>, i: Instr, limit: nat)
    requires Ranked(p) && i.CallCollective? && !ShouldIgnore(i, comm)
    ensures CodeList(p, comm, [i], limit) == [Coll(i.name)] && CodeList(p, comm, [], limit) == []
  {
    hide Ranked;
    assert [i][..0] == [];
  }

  lemma LastBlock(p: Program, comm: Option<nat>, b: nat)
    requires Ranked(p) && b in p.succ && p.succ[b] == []
    ensures ListOf(p, comm, b) == CodeList(p, comm, p.code[b], p.rank[b])
  {
    ListUnfolds(p, comm, b);
    hide Ranked, CodeList, ListOf;
  }

  lemma OneSuccessor(p: Program, comm: Option<nat>, b: nat, s: nat)
    requires Ranked(p) && b in p.succ && p.succ[b] == [s]
    ensures s in p.succ && ListOf(p, comm, b) == CodeList(p, comm, p.code[b], p.rank[b]) + ListOf(p, comm, s)
  {
    assert s in p.succ[b];
    ListUnfolds(p, comm, b);
    hide Ranked, CodeList, ListOf;
  }

  lemma DifferentSuccessors(p: Program, comm: Option<nat>, b: nat, s: nat, t: nat)
    requires Ranked(p) && b in p.succ && p.succ[b] == [s, t] && s in p.succ && t in p.succ
    requires ListOf(p, comm, s) != ListOf(p, comm, t)
    ensures ListOf(p, comm, b) == [Navs]
  {
    ListUnfolds(p, comm, b);
    hide Ranked, CodeList, ListOf;
    var ls := NeighbourLists(p, comm, b);
    assert ls[0] != ls[1];
  }

  lemma BarrierIsRanked()
    ensures Ranked(BarrierThenBranch())
  {
    BarrierSameKeys();
    hide BarrierThenBranch;
    var p := BarrierThenBranch();
    forall b, s | b in p.succ && s in p.succ[b] ensures s in p.succ && p.rank[s] < p.rank[b] {
      BarrierStep(b, s);
    }
    forall b, i | b in p.code && i in p.code[b]
      ensures i.CallFunction? && i.entry in p.succ ==> p.rank[i.entry] < p.rank[b]
    {
      BarrierInstr(b, i);
    }
  }

  lemma BarrierSameKeys()
    ensures var p := BarrierThenBranch(); p.code.Keys == p.succ.Keys && p.rank.Keys == p.succ.Keys
  {
  }

  lemma BarrierStep(b: nat, s: nat)
    requires b in BarrierThenBranch().succ && s in BarrierThenBranch().succ[b]
    ensures var p := BarrierThenBranch(); s in p.succ && p.rank[s] < p.rank[b]
  {
    assert [1][0] == 1 && [2, 3][0] == 2 && [2, 3][1] == 3;
  }

  lemma BarrierInstr(b: nat, i: Instr)
    requires b in BarrierThenBranch().code && i in BarrierThenBranch().code[b]
    ensures i.CallCollective?
  {
    assert [BARRIER][0] == BARRIER && [BCAST][0] == BCAST;
  }

  // Its first block has the list "barrier, mark": the continuations differ, and the mark is not at
  // the front.
  lemma BarrierHidesBranch(comm: Option<nat>)
    requires comm == None || comm == Some(0)
    ensures var p := BarrierThenBranch();
      && Ranked(p) && ListOf(p, comm, 0) == [Coll("MPI_Barrier"), Navs]
      && Differ(Runs(p, comm, 0)) && !IsNavs(CollectiveList(None, ListOf(p, comm, 0)))
  {
    BarrierIsRanked();
    hide Ranked, ListOf, CodeList, Runs;
    var p := BarrierThenBranch();
    OneCall(p, comm, BCAST, 0);
    LastBlock(p, comm, 2);
    LastBlock(p, comm, 3);
    DifferentSuccessors(p, comm, 1, 2, 3);
    OneCall(p, comm, BARRIER, 2);
    OneSuccessor(p, comm, 0, 1);
    ListMeans(p, comm, 0);
    MeansUniform(ListOf(p, comm, 0), Runs(p, comm, 0));
    assert !NavsFree([Coll("MPI_Barrier"), Navs]) by {
      assert ![Coll("MPI_Barrier"), Navs][1].Coll?;
    }
  }
}
