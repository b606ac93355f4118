// What a program can issue: the sequences of collectives on one communicator along the paths from a
// block to the end of its function, calls included; and what a list says about them.
module CollectiveRuns {
  import opened Sequences
  import opened CollectiveLists

  type Words = iset<seq<string>>

  ghost function Concat(a: Words, b: Words): Words {
    iset u, v | u in a && v in b :: u + v
  }

  /* What a list of elements says about a set of sequences. */

  predicate NavsFree(es: seq<Element>) {
    forall i :: 0 <= i < |es| ==> es[i].Coll?
  }

  function Names(es: seq<Element>): seq<string>
    requires NavsFree(es)
  {
    seq(|es|, i requires 0 <= i < |es| => es[i].name)
  }

  // Two sequences differ.
  ghost predicate Differ(a: Words) {
    exists u, v :: u in a && v in a && u != v
  }

  ghost predicate Uniform(a: Words) {
    forall u, v :: u in a && v in a ==> u == v
  }

  // Without a mark the list is the only sequence; with one there are two different ones.
  ghost predicate Means(es: seq<Element>, a: Words) {
    if NavsFree(es) then a == iset{Names(es)} else Differ(a)
  }

  // A list is free of marks exactly when all sequences are the same, and then it is that sequence.
  lemma MeansUniform(es: seq<Element>, a: Words)
    requires Means(es, a)
    ensures exists w :: w in a
    ensures NavsFree(es) <==> Uniform(a)
    ensures NavsFree(es) ==> forall w :: w in a <==> w == Names(es)
  {
    if NavsFree(es) {
      assert Names(es) in a;
    }
  }

  lemma NamesConcat(es: seq<Element>, fs: seq<Element>)
    ensures NavsFree(es + fs) <==> NavsFree(es) && NavsFree(fs)
    ensures NavsFree(es + fs) ==> Names(es + fs) == Names(es) + Names(fs)
  {
    if NavsFree(es + fs) {
      assert forall i :: 0 <= i < |es| ==> (es + fs)[i] == es[i];
      assert forall i :: 0 <= i < |fs| ==> (es + fs)[|es| + i] == fs[i];
    }
  }

  lemma ConcatDiffers(a: Words, b: Words)
    requires (exists u :: u in a) && (exists v :: v in b) && (Differ(a) || Differ(b))
    ensures Differ(Concat(a, b))
  {
    if Differ(a) {
      var u1, u2 :| u1 in a && u2 in a && u1 != u2;
      var v :| v in b;
      assert u1 + v != u2 + v by {
        assert u1 == (u1 + v)[..|u1 + v| - |v|] && u2 == (u2 + v)[..|u2 + v| - |v|];
      }
      assert u1 + v in Concat(a, b) && u2 + v in Concat(a, b);
    } else {
      var v1, v2 :| v1 in b && v2 in b && v1 != v2;
      var u :| u in a;
      assert u + v1 != u + v2 by {
        assert v1 == (u + v1)[|u|..] && v2 == (u + v2)[|u|..];
      }
      assert u + v1 in Concat(a, b) && u + v2 in Concat(a, b);
    }
  }

  lemma ConcatSingle(u: seq<string>, v: seq<string>)
    ensures Concat(iset{u}, iset{v}) == iset{u + v}
  {
  }

  // Lists one after the other mean the sequences one after the other.
  lemma MeansConcat(es: seq<Element>, a: Words, fs: seq<Element>, b: Words)
    requires Means(es, a) && Means(fs, b)
    ensures Means(es + fs, Concat(a, b))
  {
    NamesConcat(es, fs);
    MeansUniform(es, a);
    MeansUniform(fs, b);
    if NavsFree(es + fs) {
      ConcatSingle(Names(es), Names(fs));
    } else {
      ConcatDiffers(a, b);
    }
  }

  /* The program. */

  datatype Instr =
    | CallCollective(name: string, mpi: bool, comm: Option<nat>)
    | CallFunction(entry: nat)                // the callee's entry block
    | Other

  // The functions come callees first; "rank" shows that neither blocks nor calls go in circles.
  datatype Program = Program(funcs: seq<seq<nat>>, succ: map<nat, seq<nat>>, pred: map<nat, seq<nat>>,
                             code: map<nat, seq<Instr>>, ghost rank: map<nat, nat>)

  ghost predicate Ranked(p: Program) {
    && p.code.Keys == p.succ.Keys && p.rank.Keys == p.succ.Keys
    && (forall b, s :: b in p.succ && s in p.succ[b] ==> s in p.succ && p.rank[s] < p.rank[b])
    && (forall b, i :: b in p.code && i in p.code[b] && i.CallFunction? && i.entry in p.succ ==> p.rank[i.entry] < p.rank[b])
  }

  // A collective on another communicator does not concern this one.
  predicate ShouldIgnore(i: Instr, comm: Option<nat>) {
    i.CallCollective? && i.mpi && comm.Some? && i.comm.Some? && i.comm != comm
  }

  // The sequences one instruction issues: those of a callee that has a body, one collective, or none.
  ghost function InstrRuns(p: Program, comm: Option<nat>, i: Instr, limit: nat): Words
    requires Ranked(p)
    requires i.CallFunction? && i.entry in p.succ ==> p.rank[i.entry] < limit
    decreases limit, 0
  {
    match i
    case CallCollective(name, _, _) => if ShouldIgnore(i, comm) then iset{[]} else iset{[name]}
    case CallFunction(entry) => if entry in p.succ then Runs(p, comm, entry) else iset{[]}
    case Other => iset{[]}
  }

  // Those of the instructions of a block.
  ghost function CodeRuns(p: Program, comm: Option<nat>, code: seq<Instr>, limit: nat): Words
    requires Ranked(p)
    requires forall i :: i in code && i.CallFunction? && i.entry in p.succ ==> p.rank[i.entry] < limit
    decreases limit, 1, |code|
  {
    if code == [] then iset{[]} else
      Concat(CodeRuns(p, comm, code[..|code| - 1], limit), InstrRuns(p, comm, code[|code| - 1], limit))
  }

  // Those from a block to the end of the function.
  ghost function Runs(p: Program, comm: Option<nat>, b: nat): Words
    requires Ranked(p) && b in p.succ
    decreases p.rank[b], 2, 0
  {
    Concat(CodeRuns(p, comm, p.code[b], p.rank[b]), Onward(p, comm, b))
  }

  // Those after a block: any of its successors may come next.
  ghost function Onward(p: Program, comm: Option<nat>, b: nat): Words
    requires Ranked(p) && b in p.succ
    decreases p.rank[b], 1, 0
  {
    if p.succ[b] == [] then iset{[]} else Union(NeighbourRuns(p, comm, b))
  }

  lemma RunsOf(p: Program, comm: Option<nat>, b: nat)
    requires Ranked(p) && b in p.succ
    ensures Runs(p, comm, b) == Concat(CodeRuns(p, comm, p.code[b], p.rank[b]), Onward(p, comm, b))
  {
  }

  ghost function NeighbourRuns(p: Program, comm: Option<nat>, b: nat): (r: seq<Words>)
    requires Ranked(p) && b in p.succ
    ensures |r| == |p.succ[b]|
    ensures forall i :: 0 <= i < |r| ==> p.succ[b][i] in p.succ && r[i] == Runs(p, comm, p.succ[b][i])
    decreases p.rank[b], 0, 0
  {
    var ss := p.succ[b];
    assert forall i :: 0 <= i < |ss| ==> ss[i] in p.succ[b];
    seq(|ss|, i requires 0 <= i < |ss| => Runs(p, comm, ss[i]))
  }

  ghost function Union(ws: seq<Words>): Words {
    iset i: nat, w: seq<string> | i < |ws| && w in ws[i] :: w
  }

  // All lists are the same as the next one.
  ghost predicate AdjacentSame(ls: seq<seq<Element>>) {
    forall i, j :: 0 <= i < j < |ls| && j == i + 1 ==> ls[i] == ls[j]
  }

  lemma {:induction false} AllSame(ls: seq<seq<Element>>, i: nat)
    requires AdjacentSame(ls) && i < |ls|
    ensures ls[i] == ls[0]
  {
    if i > 0 {
      AllSame(ls, i - 1);
    }
  }

  // Alternatives with one and the same list mean that list; two different lists mean two different
  // sequences.
  lemma UnionMeans(ls: seq<seq<Element>>, ws: seq<Words>)
    requires |ls| == |ws| > 0 && forall i :: 0 <= i < |ls| ==> Means(ls[i], ws[i])
    ensures if AdjacentSame(ls) then Means(ls[0], Union(ws)) else Differ(Union(ws))
  {
    var all := Union(ws);
    forall i | 0 <= i < |ws| ensures ws[i] <= all && exists w :: w in ws[i] {
      MeansUniform(ls[i], ws[i]);
    }
    if AdjacentSame(ls) {
      forall i | 0 <= i < |ls| ensures ls[i] == ls[0] {
        AllSame(ls, i);
      }
      if NavsFree(ls[0]) {
        assert all == iset{Names(ls[0])};
      }
    } else {
      var i, j :| 0 <= i < j < |ls| && j == i + 1 && ls[i] != ls[j];
      TwoDiffer(ls[i], ws[i], ls[j], ws[j], all);
    }
  }

  lemma TwoDiffer(es: seq<Element>, a: Words, fs: seq<Element>, b: Words, all: Words)
    requires Means(es, a) && Means(fs, b) && es != fs && a <= all && b <= all
    ensures Differ(all)
  {
    if NavsFree(es) && NavsFree(fs) {
      assert Names(es) != Names(fs) by {
        if Names(es) == Names(fs) {
          SameNames(es, fs);
          assert false;
        }
      }
      assert Names(es) in all && Names(fs) in all;
    }
  }

  lemma SameNames(es: seq<Element>, fs: seq<Element>)
    requires NavsFree(es) && NavsFree(fs) && Names(es) == Names(fs)
    ensures es == fs
  {
    assert |es| == |Names(es)| && |fs| == |Names(fs)|;
    forall i | 0 <= i < |es| ensures es[i] == fs[i] {
      assert Names(es)[i] == es[i].name && Names(fs)[i] == fs[i].name;
    }
  }
}
