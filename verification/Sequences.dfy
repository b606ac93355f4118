// Small things that several modules share.
module Sequences {

  datatype Option<T> = None | Some(value: T)

  ghost predicate NoDuplicates(s: seq<nat>) {
    forall i, j :: 0 <= i < j < |s| ==> s[i] != s[j]
  }

  function Members(s: seq<nat>): set<nat> {
    set x | x in s
  }

  lemma SubsetSize<T>(s: set<T>, t: set<T>)
    requires s <= t
    ensures |s| <= |t| && (|s| == |t| <==> s == t)
  {
    assert |t - s| == |t| - |s|;
    assert t == s + (t - s);
  }

  // The members of a set, in some order.
  method ToSeq(s: set<nat>) returns (r: seq<nat>)
    ensures forall x :: x in r <==> x in s
    ensures Members(r) == s
  {
    r := [];
    var todo := s;
    while todo != {}
      invariant todo <= s && forall x :: x in r <==> x in s - todo
    {
      var x :| x in todo;
      todo, r := todo - {x}, r + [x];
    }
  }
}
