// Which collectives count for a communicator: the sequences for one communicator are those of all
// collectives, less the MPI collectives that are given another communicator.
module CollectiveComms {
  import opened Sequences
  import opened CollectiveLists
  import opened CollectiveRuns

  // A collective that is issued, and the communicator it is given, if any.
  datatype Issued = Issued(name: string, mpi: bool, comm: Option<nat>)

  type Traces = iset<seq<Issued>>

  ghost function Join(a: Traces, b: Traces): Traces {
    iset u, v | u in a && v in b :: u + v
  }

  // All collectives, whatever their communicators: of one instruction, of the instructions of a
  // block, from a block on, and after it.
  ghost function InstrTraces(p: Program, i: Instr, limit: nat): Traces
    requires Ranked(p)
    requires i.CallFunction? && i.entry in p.succ ==> p.rank[i.entry] < limit
    decreases limit, 0
  {
    match i
    case CallCollective(name, mpi, comm) => iset{[Issued(name, mpi, comm)]}
    case CallFunction(entry) => if entry in p.succ then BlockTraces(p, entry) else iset{[]}
    case Other => iset{[]}
  }

  ghost function CodeTraces(p: Program, code: seq<Instr>, limit: nat): Traces
    requires Ranked(p)
    requires forall i :: i in code && i.CallFunction? && i.entry in p.succ ==> p.rank[i.entry] < limit
    decreases limit, 1, |code|
  {
    if code == [] then iset{[]} else
      Join(CodeTraces(p, code[..|code| - 1], limit), InstrTraces(p, code[|code| - 1], limit))
  }

  ghost function BlockTraces(p: Program, b: nat): Traces
    requires Ranked(p) && b in p.succ
    decreases p.rank[b], 2, 0
  {
    Join(CodeTraces(p, p.code[b], p.rank[b]), OnwardTraces(p, b))
  }

  ghost function OnwardTraces(p: Program, b: nat): Traces
    requires Ranked(p) && b in p.succ
    decreases p.rank[b], 1, 0
  {
    if p.succ[b] == [] then iset{[]} else Either(NextTraces(p, b))
  }

  ghost function NextTraces(p: Program, b: nat): (r: seq<Traces>)
    requires Ranked(p) && b in p.succ
    ensures |r| == |p.succ[b]|
    ensures forall i :: 0 <= i < |r| ==> p.succ[b][i] in p.succ && r[i] == BlockTraces(p, p.succ[b][i])
    decreases p.rank[b], 0, 0
  {
    var ss := p.succ[b];
    assert forall i :: 0 <= i < |ss| ==> ss[i] in p.succ[b];
    seq(|ss|, i requires 0 <= i < |ss| => BlockTraces(p, ss[i]))
  }

  ghost function Either(ts: seq<Traces>): Traces {
    iset i: nat, w: seq<Issued> | i < |ts| && w in ts[i] :: w
  }

  // The names of a trace, those of MPI collectives on another communicator struck out.
  function Strike(comm: Option<nat>, w: seq<Issued>): seq<string> {
    if w == [] then [] else
      var x := w[|w| - 1];
      var other := comm.Some? && x.mpi && x.comm.Some? && x.comm.value != comm.value;
      Strike(comm, w[..|w| - 1]) + if other then [] else [x.name]
  }

  lemma {:induction false} StrikeConcat(comm: Option<nat>, u: seq<Issued>, v: seq<Issued>)
    ensures Strike(comm, u + v) == Strike(comm, u) + Strike(comm, v)
    decreases |v|
  {
    if v == [] {
      assert u + v == u;
    } else {
      var n := |v| - 1;
      assert (u + v)[..|u + v| - 1] == u + v[..n];
      StrikeConcat(comm, u, v[..n]);
    }
  }

  // The words are the traces struck out.
  ghost predicate Struck(comm: Option<nat>, ts: Traces, a: Words) {
    && (forall w :: w in ts ==> Strike(comm, w) in a)
    && (forall u :: u in a ==> exists w :: w in ts && Strike(comm, w) == u)
  }

  lemma StruckJoin(comm: Option<nat>, ts: Traces, a: Words, us: Traces, b: Words)
    requires Struck(comm, ts, a) && Struck(comm, us, b)
    ensures Struck(comm, Join(ts, us), Concat(a, b))
  {
    forall w | w in Join(ts, us) ensures Strike(comm, w) in Concat(a, b) {
      var u, v :| u in ts && v in us && w == u + v;
      StrikeConcat(comm, u, v);
    }
    forall x | x in Concat(a, b) ensures exists w :: w in Join(ts, us) && Strike(comm, w) == x {
      var y, z :| y in a && z in b && x == y + z;
      var u :| u in ts && Strike(comm, u) == y;
      var v :| v in us && Strike(comm, v) == z;
      StrikeConcat(comm, u, v);
      assert u + v in Join(ts, us);
    }
  }

  lemma StruckNothing(comm: Option<nat>)
    ensures Struck(comm, iset{[]}, iset{[]})
  {
    var nothing: Traces := iset{[]};
    assert [] in nothing && Strike(comm, []) == [];
  }

  lemma StruckOne(comm: Option<nat>, x: Issued, a: Words)
    requires a == iset{Strike(comm, [x])}
    ensures Struck(comm, iset{[x]}, a)
  {
    var one: Traces := iset{[x]};
    assert [x] in one;
  }

  lemma {:induction false} CodeStruck(p: Program, comm: Option<nat>, code: seq<Instr>, limit: nat)
    requires Ranked(p)
    requires forall i :: i in code && i.CallFunction? && i.entry in p.succ ==> p.rank[i.entry] < limit
    ensures Struck(comm, CodeTraces(p, code, limit), CodeRuns(p, comm, code, limit))
    decreases limit, 1, |code|
  {
    hide Ranked, Struck;
    if code == [] {
      StruckNothing(comm);
    } else {
      var init, last := code[..|code| - 1], code[|code| - 1];
      assert last in code;
      CodeStruck(p, comm, init, limit);
      InstrStruck(p, comm, last, limit);
      StruckJoin(comm, CodeTraces(p, init, limit), CodeRuns(p, comm, init, limit),
                 InstrTraces(p, last, limit), InstrRuns(p, comm, last, limit));
    }
  }

  lemma {:induction false} InstrStruck(p: Program, comm: Option<nat>, i: Instr, limit: nat)
    requires Ranked(p)
    requires i.CallFunction? && i.entry in p.succ ==> p.rank[i.entry] < limit
    ensures Struck(comm, InstrTraces(p, i, limit), InstrRuns(p, comm, i, limit))
    decreases limit, 0
  {
    hide Ranked, Struck;
    StruckNothing(comm);
    if i.CallFunction? && i.entry in p.succ {
      TracesStruck(p, comm, i.entry);
    } else if i.CallCollective? {
      var x := Issued(i.name, i.mpi, i.comm);
      assert [x][..0] == [] && Strike(comm, [x][..0]) == [];
      assert Strike(comm, [x]) == if ShouldIgnore(i, comm) then [] else [i.name];
      StruckOne(comm, x, InstrRuns(p, comm, i, limit));
    }
  }

  lemma {:induction false} TracesStruck(p: Program, comm: Option<nat>, b: nat)
    requires Ranked(p) && b in p.succ
    ensures Struck(comm, BlockTraces(p, b), Runs(p, comm, b))
    decreases p.rank[b], 2, 0
  {
    CodeStruck(p, comm, p.code[b], p.rank[b]);
    OnwardStruck(p, comm, b);
    hide Ranked, Struck, Concat, Join;
    StruckJoin(comm, CodeTraces(p, p.code[b], p.rank[b]), CodeRuns(p, comm, p.code[b], p.rank[b]),
               OnwardTraces(p, b), Onward(p, comm, b));
  }

  lemma {:induction false} OnwardStruck(p: Program, comm: Option<nat>, b: nat)
    requires Ranked(p) && b in p.succ
    ensures Struck(comm, OnwardTraces(p, b), Onward(p, comm, b))
    decreases p.rank[b], 1, 0
  {
    StruckNothing(comm);
    if p.succ[b] != [] {
      var ts, ws := NextTraces(p, b), NeighbourRuns(p, comm, b);
      forall i | 0 <= i < |ts| ensures Struck(comm, ts[i], ws[i]) {
        assert p.succ[b][i] in p.succ[b];
        TracesStruck(p, comm, p.succ[b][i]);
      }
      hide Ranked, Struck;
      StruckEither(comm, ts, ws);
    }
  }

  lemma StruckEither(comm: Option<nat>, ts: seq<Traces>, ws: seq<Words>)
    requires |ts| == |ws| && forall i :: 0 <= i < |ts| ==> Struck(comm, ts[i], ws[i])
    ensures Struck(comm, Either(ts), Union(ws))
  {
    forall w | w in Either(ts) ensures Strike(comm, w) in Union(ws) {
      var i :| 0 <= i < |ts| && w in ts[i];
      assert Strike(comm, w) in ws[i];
    }
    forall u | u in Union(ws) ensures exists w :: w in Either(ts) && Strike(comm, w) == u {
      var i :| 0 <= i < |ws| && u in ws[i];
      var w :| w in ts[i] && Strike(comm, w) == u;
      assert w in Either(ts);
    }
  }

  // The sequences for a communicator are exactly those of all collectives with the MPI collectives
  // on other communicators struck out. Collectives without a communicator, and those that are not
  // MPI's, always count; without a communicator to look at, all do.
  lemma RunsAreTraces(p: Program, comm: Option<nat>, b: nat, u: seq<string>)
    requires Ranked(p) && b in p.succ
    ensures u in Runs(p, comm, b) <==> exists w :: w in BlockTraces(p, b) && Strike(comm, w) == u
  {
    TracesStruck(p, comm, b);
  }
}
