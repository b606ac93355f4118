// Inclusion constraints, what it means to solve them, and the solver's state seen through its
// merge forest.
module PointsTo {

  datatype Constraint =
    | AddrOf(dest: nat, src: nat)  // dest = &src
    | Copy(dest: nat, src: nat)    // dest = src
    | Load(dest: nat, src: nat)    // dest = *src
    | Store(dest: nat, src: nat)   // *dest = src

  // An assignment of points-to sets to nodes.
  type Assignment = nat -> set<nat>

  ghost predicate Satisfies(a: Assignment, c: Constraint) {
    match c
    case AddrOf(d, x) => x in a(d)
    case Copy(d, x) => a(x) <= a(d)
    case Load(d, p) => forall v :: v in a(p) ==> a(v) <= a(d)
    case Store(p, x) => forall v :: v in a(p) ==> a(x) <= a(v)
  }

  ghost predicate IsSolution(a: Assignment, cs: seq<Constraint>) {
    forall c :: c in cs ==> Satisfies(a, c)
  }

  // "a" does not tell apart nodes that "rep" has merged.
  ghost predicate Respects(a: Assignment, rep: seq<nat>) {
    forall n :: 0 <= n < |rep| ==> a(n) == a(rep[n])
  }

  ghost predicate InRange(cs: seq<Constraint>, n: nat) {
    forall c :: c in cs ==> c.dest < n && c.src < n
  }

  // The outgoing edges of one constraint graph node, by node id (possibly an id merged since).
  datatype Edges = Edges(copy: set<nat>, load: set<nat>, store: set<nat>)

  const NoEdges := Edges({}, {}, {})

  ghost predicate IdsBelow(s: set<nat>, n: nat) {
    forall x :: x in s ==> x < n
  }

  // A snapshot of the solver: representatives, points-to graph and constraint graph.
  datatype State = State(rep: seq<nat>, pts: map<nat, set<nat>>, graph: map<nat, Edges>) {

    ghost function Pts(n: nat): set<nat> {
      if n in pts then pts[n] else {}
    }

    ghost function EdgesOf(n: nat): Edges {
      if n in graph then graph[n] else NoEdges
    }

    ghost predicate IsRep(n: nat) {
      n < |rep| && rep[n] == n
    }

    // The set of representatives that the ids of "s" stand for.
    ghost function Reps(s: set<nat>): set<nat> {
      set e | e in s && e < |rep| :: rep[e]
    }

    // The constraint graph modulo merging.
    ghost function Succ(n: nat): set<nat> { Reps(EdgesOf(n).copy) }
    ghost function LoadTo(n: nat): set<nat> { Reps(EdgesOf(n).load) }
    ghost function StoreFrom(n: nat): set<nat> { Reps(EdgesOf(n).store) }

    ghost predicate WellFormed() {
      && (forall n {:trigger rep[n]} :: 0 <= n < |rep| ==> IsRep(rep[n]))
      && (forall n :: n in pts ==> IsRep(n) && IdsBelow(pts[n], |rep|))
      && (forall n :: n in graph ==>
            && IsRep(n)
            && IdsBelow(graph[n].copy, |rep|)
            && IdsBelow(graph[n].load, |rep|)
            && IdsBelow(graph[n].store, |rep|))
    }

    // All constraints leaving the representative "n" hold in the current points-to graph.
    ghost predicate Done(n: nat) {
      && (forall d :: d in Succ(n) ==> Pts(n) <= Pts(d))
      && (forall v, d :: v in Pts(n) && v < |rep| && d in LoadTo(n) ==> d in Succ(rep[v]))
      && (forall v, x :: v in Pts(n) && v < |rep| && x in StoreFrom(n) ==> rep[v] in Succ(x))
    }

    // Every original constraint is still represented.
    ghost predicate CoversOne(c: Constraint)
      requires c.dest < |rep| && c.src < |rep|
    {
      match c
      case AddrOf(d, x) => x in Pts(rep[d])
      case Copy(d, x) => rep[d] in Succ(rep[x])
      case Load(d, p) => rep[d] in LoadTo(rep[p])
      case Store(p, x) => rep[x] in StoreFrom(rep[p])
    }

    ghost predicate Covers(cs: seq<Constraint>)
      requires InRange(cs, |rep|)
    {
      forall c :: c in cs ==> CoversOne(c)
    }

    // Nothing in the state exceeds the assignment "a".
    ghost predicate Below(a: Assignment) {
      && Respects(a, rep)
      && (forall n :: IsRep(n) ==> Pts(n) <= a(n))
      && (forall n, d :: IsRep(n) && d in Succ(n) ==> a(n) <= a(d))
      && (forall n, d, v :: IsRep(n) && d in LoadTo(n) && v in a(n) ==> a(v) <= a(d))
      && (forall n, x, v :: IsRep(n) && x in StoreFrom(n) && v in a(n) ==> a(x) <= a(v))
    }

    // Some id of "work" stands for "n".
    ghost predicate Pending(n: nat, work: set<nat>) {
      exists w :: w in work && w < |rep| && rep[w] == n
    }

    // The solver's invariant: what is not on a worklist has all its constraints satisfied.
    ghost predicate Settled(work: set<nat>) {
      forall n {:trigger Done(n)} :: IsRep(n) ==> Done(n) || Pending(n, work)
    }

    // The final answer.
    ghost function Answer(): Assignment {
      (n: nat) => if n < |rep| then Pts(rep[n]) else {}
    }

    // Termination measures: representatives, and among them the points-to pairs and the literal
    // copy edges that are still missing.
    ghost function AllReps(): set<nat> {
      set n | 0 <= n < |rep| && rep[n] == n
    }
    ghost function MissingPts(): set<(nat, nat)> {
      set n, o | 0 <= n < |rep| && 0 <= o < |rep| && rep[n] == n && o !in Pts(n) :: (n, o)
    }
    ghost function MissingCopies(): set<(nat, nat)> {
      set n, d | 0 <= n < |rep| && 0 <= d < |rep| && rep[n] == n && rep[d] == d && d !in EdgesOf(n).copy :: (n, d)
    }
  }

  // When nothing is pending, the answer satisfies every constraint ...
  lemma AnswerSatisfies(s: State, c: Constraint)
    requires s.WellFormed() && s.Settled({}) && c.dest < |s.rep| && c.src < |s.rep| && s.CoversOne(c)
    ensures Satisfies(s.Answer(), c)
  {
    var a := s.Answer();
    match c
    case AddrOf(d, x) =>
    case Copy(d, x) =>
      assert s.Done(s.rep[x]);
    case Load(d, p) =>
      assert s.Done(s.rep[p]);
      forall v | v in a(p) ensures a(v) <= a(d) {
        assert s.Done(s.rep[v]);
      }
    case Store(p, x) =>
      assert s.Done(s.rep[p]);
      assert s.Done(s.rep[x]);
  }

  lemma AnswerIsSolution(s: State, cs: seq<Constraint>)
    requires s.WellFormed() && InRange(cs, |s.rep|) && s.Covers(cs) && s.Settled({})
    ensures IsSolution(s.Answer(), cs)
  {
    forall c | c in cs ensures Satisfies(s.Answer(), c) {
      AnswerSatisfies(s, c);
    }
  }

  // ... and lies below every assignment that the state lies below.
  lemma AnswerIsBelow(s: State, a: Assignment)
    requires s.WellFormed() && s.Below(a)
    ensures forall n :: s.Answer()(n) <= a(n)
  {
    forall n: nat ensures s.Answer()(n) <= a(n) {
      if n < |s.rep| {
        assert s.IsRep(s.rep[n]);
        assert a(n) == a(s.rep[n]);
      }
    }
  }
}
