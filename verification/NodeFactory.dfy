// The merge forest of the points-to analysis: every node carries a merge target, a node that
// is its own target is a representative, and a lookup may compress the path it walked.
module NodeFactory {

  // "rep" is the map to representatives induced by the links "target": constant along every
  // link, and the identity on roots.
  ghost predicate IsRepMap(target: seq<nat>, rep: seq<nat>) {
    && |rep| == |target|
    && (forall n {:trigger target[n]} :: 0 <= n < |target| ==> target[n] < |target|)
    && (forall n {:trigger rep[n]} :: 0 <= n < |target| ==> rep[n] < |target| && target[rep[n]] == rep[n])
    && (forall n {:trigger target[n]} :: 0 <= n < |target| ==> rep[target[n]] == rep[n])
    && (forall n {:trigger target[n]} :: 0 <= n < |target| && target[n] == n ==> rep[n] == n)
  }

  // The links are acyclic: every link that is not a root's self-loop goes down in "rank".
  ghost predicate IsRanked(target: seq<nat>, rank: seq<nat>) {
    && |rank| == |target|
    && (forall n {:trigger target[n]} :: 0 <= n < |target| ==> target[n] < |target|)
    && (forall n {:trigger target[n]} :: 0 <= n < |target| && target[n] != n ==> rank[target[n]] < rank[n])
  }

  ghost predicate Acyclic(target: seq<nat>) {
    exists rank :: IsRanked(target, rank)
  }

  // On an acyclic forest the representative of a node is determined by the links alone, so a
  // lookup that reports "rep[n]" reports the root that the links lead to.
  lemma {:induction false} RepMapUnique(target: seq<nat>, rank: seq<nat>, rep: seq<nat>, rep': seq<nat>, n: nat)
    requires IsRanked(target, rank) && IsRepMap(target, rep) && IsRepMap(target, rep')
    requires n < |target|
    ensures rep[n] == rep'[n]
    decreases rank[n]
  {
    if target[n] != n {
      RepMapUnique(target, rank, rep, rep', target[n]);
    }
  }

  // A root has the least rank of its tree.
  lemma {:induction false} RootRankLeast(target: seq<nat>, rank: seq<nat>, rep: seq<nat>, n: nat)
    requires IsRanked(target, rank) && IsRepMap(target, rep)
    requires n < |target|
    ensures rank[rep[n]] <= rank[n]
    ensures rep[n] != n ==> rank[rep[n]] < rank[n]
    decreases rank[n]
  {
    if target[n] != n {
      RootRankLeast(target, rank, rep, target[n]);
    }
  }

  // The representatives after "src" has been linked under "dst".
  ghost function Merged(rep: seq<nat>, dst: nat, src: nat): (r: seq<nat>)
    ensures |r| == |rep|
    ensures forall n :: 0 <= n < |rep| ==> r[n] == if rep[n] == src then dst else rep[n]
  {
    seq(|rep|, n requires 0 <= n < |rep| => if rep[n] == src then dst else rep[n])
  }

  // Linking one root under another keeps the forest acyclic.
  lemma LinkKeepsAcyclic(target: seq<nat>, rep: seq<nat>, dst: nat, src: nat)
    requires Acyclic(target) && IsRepMap(target, rep)
    requires dst < |target| && src < |target| && dst != src
    requires rep[dst] == dst && rep[src] == src
    ensures Acyclic(target[src := dst])
    ensures IsRepMap(target[src := dst], Merged(rep, dst, src))
  {
    var rank :| IsRanked(target, rank);
    var rank' := seq(|rank|, n requires 0 <= n < |rank| =>
      if rep[n] == src then rank[n] + rank[dst] + 1 else rank[n]);
    assert IsRanked(target[src := dst], rank');
  }

  // Pointing a node directly at its root keeps the forest acyclic and moves no representative.
  lemma CompressKeepsRep(target: seq<nat>, rep: seq<nat>, n: nat)
    requires Acyclic(target) && IsRepMap(target, rep)
    requires n < |target|
    ensures Acyclic(target[n := rep[n]])
    ensures IsRepMap(target[n := rep[n]], rep)
  {
    var rank :| IsRanked(target, rank);
    RootRankLeast(target, rank, rep, n);
    assert IsRanked(target[n := rep[n]], rank);
  }

  class AndersNodeFactory {
    var target: seq<nat>
    ghost var rep: seq<nat>

    ghost predicate Valid()
      reads this
    {
      Acyclic(target) && IsRepMap(target, rep)
    }

    // Every node starts as its own representative.
    constructor (n: nat)
      ensures Valid()
      ensures |rep| == n && forall i :: 0 <= i < n ==> rep[i] == i
    {
      target := seq(n, i => i);
      rep := seq(n, i => i);
      new;
      assert IsRanked(target, seq(n, i => 0));
    }

    // mergeNode: called on two representatives.
    method MergeNode(dst: nat, src: nat)
      requires Valid()
      requires dst < |rep| && src < |rep| && dst != src
      requires rep[dst] == dst && rep[src] == src
      modifies this
      ensures Valid()
      ensures rep == Merged(old(rep), dst, src)
      ensures target == old(target)[src := dst]
    {
      LinkKeepsAcyclic(target, rep, dst, src);
      target := target[src := dst];
      rep := Merged(rep, dst, src);
    }

    // The const lookup: follows the links and writes nothing.
    method FindMergeTarget(n: nat) returns (ret: nat)
      requires Valid() && n < |rep|
      ensures ret == rep[n]
    {
      ghost var rank :| IsRanked(target, rank);
      ret := target[n];
      while ret != target[ret]
        invariant ret < |target| && rep[ret] == rep[n]
        decreases rank[ret]
      {
        ret := target[ret];
      }
    }

    // Points every node of a walked path at the root the walk ended in.
    method CompressPath(path: seq<nat>, ret: nat)
      requires Valid()
      requires forall k :: 0 <= k < |path| ==> path[k] < |rep| && rep[path[k]] == ret
      modifies this`target
      ensures Valid()
      ensures forall k :: 0 <= k < |path| ==> target[path[k]] == ret
    {
      for i := 0 to |path|
        invariant Valid()
        invariant forall k :: 0 <= k < i ==> target[path[k]] == ret
      {
        CompressKeepsRep(target, rep, path[i]);
        target := target[path[i] := ret];
      }
    }

    // The mutating lookup: collects the path and compresses it.  The forest is another one, the
    // representative of every node is the same.
    method GetMergeTarget(n: nat) returns (ret: nat)
      requires Valid() && n < |rep|
      modifies this`target
      ensures Valid()
      ensures ret == rep[n]
      ensures target[n] == ret
    {
      ret := target[n];
      if ret != n {
        var path: seq<nat> := [n];
        ghost var rank :| IsRanked(target, rank);
        while ret != target[ret]
          invariant ret < |target| && rep[ret] == rep[n]
          invariant |path| > 0 && path[0] == n
          invariant forall k :: 0 <= k < |path| ==> path[k] < |rep| && rep[path[k]] == rep[n]
          decreases rank[ret]
        {
          path := path + [ret];
          ret := target[ret];
        }
        CompressPath(path, ret);
        assert target[path[0]] == ret;
      }
    }
  }
}
