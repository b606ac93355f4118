// The store of memory accesses of one window: kept in the order of (Low, Up), searched by walking
// away from the insertion point until the first access that does not intersect.
module IntervalStore {

  datatype AccessType = LocalRead | LocalWrite | RmaRead | RmaWrite

  datatype Interval = Interval(low: nat, up: nat) {
    predicate WellFormed() {
      low <= up
    }

    predicate Less(other: Interval) {
      low < other.low || (low == other.low && up < other.up)
    }

    predicate Intersects(other: Interval) {
      !(low > other.up || up < other.low)
    }

    ghost predicate Holds(x: int) {
      low <= x <= up
    }
  }

  datatype Access = Access(itv: Interval, kind: AccessType, line: nat) {
    // Two accesses conflict when they intersect and their type bits together are both set.
    predicate ConflictsWith(other: Access) {
      itv.Intersects(other.itv) && (Bits(kind) | Bits(other.kind)) == 3
    }
  }

  function Bits(t: AccessType): bv2 {
    match t
    case LocalRead => 0
    case LocalWrite => 1
    case RmaRead => 2
    case RmaWrite => 3
  }

  // What the two tests mean: a common address; one access writes and one is remote.
  lemma ConflictMeans(a: Access, b: Access)
    requires a.itv.WellFormed() && b.itv.WellFormed()
    ensures a.ConflictsWith(b) <==>
            && (exists x :: a.itv.Holds(x) && b.itv.Holds(x))
            && (a.kind.LocalWrite? || a.kind.RmaWrite? || b.kind.LocalWrite? || b.kind.RmaWrite?)
            && (a.kind.RmaRead? || a.kind.RmaWrite? || b.kind.RmaRead? || b.kind.RmaWrite?)
  {
    if a.itv.Intersects(b.itv) {
      var x := if a.itv.low < b.itv.low then b.itv.low else a.itv.low;
      assert a.itv.Holds(x) && b.itv.Holds(x);
    }
  }

  // "x" starts before "y", or where it starts and ends no later.
  ghost predicate NotAfter(x: Interval, y: Interval) {
    x.low < y.low || (x.low == y.low && x.up <= y.up)
  }

  // The order of the store, on the bounds themselves.
  ghost predicate Sorted(s: seq<Access>) {
    forall i, j :: 0 <= i < j < |s| ==> NotAfter(s[i].itv, s[j].itv)
  }

  // No interval lies inside another one and touches neither of its ends.
  ghost predicate NoneInside(s: seq<Access>) {
    forall a, b :: a in s && b in s ==> !(a.itv.low < b.itv.low && b.itv.up < a.itv.up)
  }

  // In a sorted store upper bounds are ordered exactly if no interval lies inside another one: a
  // condition on the accesses that does not depend on where they stand.
  lemma UppersSortedIff(s: seq<Access>)
    requires Sorted(s)
    ensures UppersSorted(s) <==> NoneInside(s)
  {
    if UppersSorted(s) {
      forall a, b | a in s && b in s ensures !(a.itv.low < b.itv.low && b.itv.up < a.itv.up) {
        var i :| 0 <= i < |s| && s[i] == a;
        var j :| 0 <= j < |s| && s[j] == b;
        assert j < i ==> NotAfter(s[j].itv, s[i].itv);
      }
    }
    if NoneInside(s) {
      forall i, j | 0 <= i < j < |s| ensures s[i].itv.up <= s[j].itv.up {
        assert NotAfter(s[i].itv, s[j].itv) && s[i] in s && s[j] in s;
      }
    }
  }

  ghost predicate AllWellFormed(s: seq<Access>) {
    forall i :: 0 <= i < |s| ==> s[i].itv.WellFormed()
  }

  ghost predicate UppersSorted(s: seq<Access>) {
    forall i, j :: 0 <= i < j < |s| ==> s[i].itv.up <= s[j].itv.up
  }

  // The position of the first access greater than "a".
  ghost predicate IsUpperBound(s: seq<Access>, a: Access, k: nat) {
    && k <= |s|
    && (forall i :: 0 <= i < k ==> NotAfter(s[i].itv, a.itv))
    && (forall i :: k <= i < |s| ==> !NotAfter(s[i].itv, a.itv))
  }

  // What the two walks from position "k" collect: positions "lo" up to "hi".
  ghost predicate IsScan(s: seq<Access>, a: Access, k: nat, lo: nat, hi: nat) {
    && lo <= k <= hi <= |s|
    && (forall i :: lo <= i < hi ==> s[i].itv.Intersects(a.itv))
    && (lo == 0 || !s[lo - 1].itv.Intersects(a.itv))
    && (hi == |s| || !s[hi].itv.Intersects(a.itv))
  }

  ghost predicate ScanComplete(s: seq<Access>, a: Access, lo: nat, hi: nat) {
    forall i :: 0 <= i < |s| && s[i].itv.Intersects(a.itv) ==> lo <= i < hi
  }

  // The forward walk never misses anything.
  lemma ForwardComplete(s: seq<Access>, a: Access, k: nat, lo: nat, hi: nat, i: nat)
    requires Sorted(s) && AllWellFormed(s) && a.itv.WellFormed() && IsUpperBound(s, a, k) && IsScan(s, a, k, lo, hi)
    requires k <= i < |s| && s[i].itv.Intersects(a.itv)
    ensures i < hi
  {
  }

  // When upper bounds are ordered like the store, nothing intersects behind the point where the
  // backward walk stops.
  lemma BackwardComplete(s: seq<Access>, a: Access, k: nat, lo: nat, hi: nat, i: nat)
    requires Sorted(s) && AllWellFormed(s) && a.itv.WellFormed() && IsUpperBound(s, a, k) && IsScan(s, a, k, lo, hi)
    requires UppersSorted(s) && i < lo
    ensures !s[i].itv.Intersects(a.itv)
  {
    var last := s[lo - 1];
    assert NotAfter(last.itv, a.itv);
    assert i < lo - 1 ==> s[i].itv.up <= last.itv.up;
  }

  lemma ScanIsComplete(s: seq<Access>, a: Access, k: nat, lo: nat, hi: nat)
    requires Sorted(s) && AllWellFormed(s) && a.itv.WellFormed() && IsUpperBound(s, a, k) && IsScan(s, a, k, lo, hi)
    requires UppersSorted(s)
    ensures ScanComplete(s, a, lo, hi)
  {
    forall i | 0 <= i < |s| ensures s[i].itv.Intersects(a.itv) ==> lo <= i < hi {
      if i < lo {
        BackwardComplete(s, a, k, lo, hi, i);
      } else if i >= k && s[i].itv.Intersects(a.itv) {
        ForwardComplete(s, a, k, lo, hi, i);
      }
    }
  }

  // Every search is complete: whatever well-formed access is looked for, all that intersects it
  // is found.
  ghost predicate EverySearchComplete(s: seq<Access>) {
    forall a: Access, k, lo, hi {:trigger IsUpperBound(s, a, k), IsScan(s, a, k, lo, hi)} ::
      a.itv.WellFormed() && IsUpperBound(s, a, k) && IsScan(s, a, k, lo, hi) ==> ScanComplete(s, a, lo, hi)
  }

  lemma UpperBoundExists(s: seq<Access>, a: Access) returns (k: nat)
    requires Sorted(s)
    ensures IsUpperBound(s, a, k)
  {
    k := 0;
    while k < |s| && NotAfter(s[k].itv, a.itv)
      invariant k <= |s| && forall i :: 0 <= i < k ==> NotAfter(s[i].itv, a.itv)
    {
      k := k + 1;
    }
    forall i | k <= i < |s| ensures !NotAfter(s[i].itv, a.itv) {
      assert i > k ==> NotAfter(s[k].itv, s[i].itv);
    }
  }

  lemma ScanExists(s: seq<Access>, a: Access, k: nat) returns (lo: nat, hi: nat)
    requires IsUpperBound(s, a, k)
    ensures IsScan(s, a, k, lo, hi)
  {
    lo, hi := k, k;
    while hi < |s| && s[hi].itv.Intersects(a.itv)
      invariant k <= hi <= |s| && forall i :: k <= i < hi ==> s[i].itv.Intersects(a.itv)
    {
      hi := hi + 1;
    }
    while lo > 0 && s[lo - 1].itv.Intersects(a.itv)
      invariant lo <= k && forall i :: lo <= i < hi ==> s[i].itv.Intersects(a.itv)
    {
      lo := lo - 1;
    }
  }

  // Exactly: the search is complete for every access if and only if the upper bounds are
  // non-decreasing in stored order.
  lemma CompleteIffUppersSorted(s: seq<Access>)
    requires Sorted(s) && AllWellFormed(s)
    ensures EverySearchComplete(s) <==> UppersSorted(s)
  {
    if UppersSorted(s) {
      forall a: Access, k, lo, hi | a.itv.WellFormed() && IsUpperBound(s, a, k) && IsScan(s, a, k, lo, hi) ensures ScanComplete(s, a, lo, hi) {
        ScanIsComplete(s, a, k, lo, hi);
      }
    } else {
      var i, j :| 0 <= i < j < |s| && s[i].itv.up > s[j].itv.up;
      var _, _, _, _ := MissedAccess(s, i, j);
    }
  }

  // An access that ends before an earlier stored one hides it from a search just behind. A remote
  // write there conflicts with the hidden one.
  lemma MissedAccess(s: seq<Access>, i: nat, j: nat) returns (a: Access, k: nat, lo: nat, hi: nat)
    requires Sorted(s) && AllWellFormed(s) && i < j < |s| && s[i].itv.up > s[j].itv.up
    ensures a.itv.WellFormed() && IsUpperBound(s, a, k) && IsScan(s, a, k, lo, hi) && !ScanComplete(s, a, lo, hi)
    ensures s[i].ConflictsWith(a) && i < lo
  {
    var x := s[i].itv.up;
    a := Access(Interval(x, x), RmaWrite, 0);
    k := UpperBoundExists(s, a);
    lo, hi := ScanExists(s, a, k);
    assert !s[j].itv.Intersects(a.itv);
    assert k > j;
    assert lo > j;
    assert s[i].itv.Intersects(a.itv);
  }

  // Every conflict is found, whatever well-formed access is looked for.
  ghost predicate EveryConflictFound(s: seq<Access>) {
    forall a: Access, k: nat, lo: nat, hi: nat {:trigger IsUpperBound(s, a, k), IsScan(s, a, k, lo, hi)} ::
      a.itv.WellFormed() && IsUpperBound(s, a, k) && IsScan(s, a, k, lo, hi) ==>
        forall i :: 0 <= i < |s| && s[i].ConflictsWith(a) ==> lo <= i < hi
  }

  // The same condition is exact for conflicts.
  lemma ConflictsFoundIffUppersSorted(s: seq<Access>)
    requires Sorted(s) && AllWellFormed(s)
    ensures EveryConflictFound(s) <==> UppersSorted(s)
  {
    if UppersSorted(s) {
      forall a: Access, k: nat, lo: nat, hi: nat | a.itv.WellFormed() && IsUpperBound(s, a, k) && IsScan(s, a, k, lo, hi)
        ensures forall i :: 0 <= i < |s| && s[i].ConflictsWith(a) ==> lo <= i < hi
      {
        ScanIsComplete(s, a, k, lo, hi);
      }
    } else {
      var i, j :| 0 <= i < j < |s| && s[i].itv.up > s[j].itv.up;
      var a, k, lo, hi := MissedAccess(s, i, j);
      assert IsUpperBound(s, a, k) && IsScan(s, a, k, lo, hi);
    }
  }

  // That is, all conflicts are found exactly if no stored interval lies inside another one.
  lemma ConflictsFoundIffNoneInside(s: seq<Access>)
    requires Sorted(s) && AllWellFormed(s)
    ensures EveryConflictFound(s) <==> NoneInside(s)
  {
    hide EveryConflictFound, NoneInside, UppersSorted;
    ConflictsFoundIffUppersSorted(s);
    UppersSortedIff(s);
  }

  ghost predicate ConflictFree(s: seq<Access>) {
    forall i, j :: 0 <= i < j < |s| ==> !s[i].ConflictsWith(s[j])
  }

  datatype Outcome = Saved | Abort(conflicts: seq<Access>)

  ghost function Inserted(s: seq<Access>, a: Access, k: nat): seq<Access>
    requires k <= |s|
  {
    s[..k] + [a] + s[k..]
  }

  // A save that does not abort: the scan has found no conflict, and the access goes in at its upper
  // bound.
  ghost predicate Saves(s: seq<Access>, a: Access, t: seq<Access>) {
    exists k, lo, hi :: SavesAt(s, a, t, k, lo, hi)
  }

  ghost predicate SavesAt(s: seq<Access>, a: Access, t: seq<Access>, k: nat, lo: nat, hi: nat) {
    && IsUpperBound(s, a, k) && IsScan(s, a, k, lo, hi) && t == Inserted(s, a, k)
    && (forall i :: lo <= i < hi ==> !s[i].ConflictsWith(a))
  }

  class Store {
    var intervals: seq<Access>

    constructor ()
      ensures intervals == []
    {
      intervals := [];
    }

    method UpperBound(a: Access) returns (k: nat)
      requires Sorted(intervals)
      ensures IsUpperBound(intervals, a, k)
    {
      k := 0;
      while k < |intervals| && !a.itv.Less(intervals[k].itv)
        invariant k <= |intervals| && forall i :: 0 <= i < k ==> NotAfter(intervals[i].itv, a.itv)
      {
        k := k + 1;
      }
      forall i | k <= i < |intervals| ensures !NotAfter(intervals[i].itv, a.itv) {
        assert i > k ==> NotAfter(intervals[k].itv, intervals[i].itv);
      }
    }

    // getIntersectingIntervals: forward from the upper bound, then backward from it.
    method Intersecting(a: Access) returns (found: seq<Access>, ghost k: nat, ghost lo: nat, ghost hi: nat)
      requires Sorted(intervals)
      ensures IsUpperBound(intervals, a, k) && IsScan(intervals, a, k, lo, hi) && found == intervals[lo..hi]
      ensures forall x :: x in found ==> x.itv.Intersects(a.itv)
      ensures AllWellFormed(intervals) && a.itv.WellFormed() && UppersSorted(intervals) ==> ScanComplete(intervals, a, lo, hi)
    {
      var start := UpperBound(a);
      var end := start;
      while end < |intervals| && intervals[end].itv.Intersects(a.itv)
        invariant start <= end <= |intervals| && forall i :: start <= i < end ==> intervals[i].itv.Intersects(a.itv)
      {
        end := end + 1;
      }
      var begin: nat := start;
      while begin > 0 && intervals[begin - 1].itv.Intersects(a.itv)
        invariant begin <= start && forall i :: begin <= i < end ==> intervals[i].itv.Intersects(a.itv)
      {
        begin := begin - 1;
      }
      k, lo, hi := start, begin, end;
      found := intervals[begin..end];
      if AllWellFormed(intervals) && a.itv.WellFormed() && UppersSorted(intervals) {
        ScanIsComplete(intervals, a, k, lo, hi);
      }
    }

    // getConflictingIntervals: those of the scan that conflict.
    method Conflicting(a: Access) returns (conflicts: seq<Access>, ghost k: nat, ghost lo: nat, ghost hi: nat)
      requires Sorted(intervals)
      ensures IsUpperBound(intervals, a, k) && IsScan(intervals, a, k, lo, hi)
      ensures forall x :: x in conflicts <==> x in intervals[lo..hi] && x.ConflictsWith(a)
      ensures AllWellFormed(intervals) && a.itv.WellFormed() && UppersSorted(intervals) ==>
              forall x :: x in intervals && x.ConflictsWith(a) ==> x in conflicts
    {
      var found;
      found, k, lo, hi := Intersecting(a);
      conflicts := [];
      for i := 0 to |found|
        invariant forall x :: x in conflicts <==> x in found[..i] && x.ConflictsWith(a)
      {
        assert found[..i + 1] == found[..i] + [found[i]];
        if found[i].ConflictsWith(a) {
          conflicts := conflicts + [found[i]];
        }
      }
      assert found[..|found|] == found;
      if AllWellFormed(intervals) && a.itv.WellFormed() && UppersSorted(intervals) {
        forall x | x in intervals && x.ConflictsWith(a) ensures x in conflicts {
          var i :| 0 <= i < |intervals| && intervals[i] == x;
          assert found[i - lo] == x;
        }
      }
    }

    // save_interval: reports conflicts and aborts, or inserts.
    method Save(a: Access) returns (outcome: Outcome)
      requires Sorted(intervals)
      modifies this
      ensures Sorted(intervals)
      ensures outcome.Abort? ==> intervals == old(intervals) && outcome.conflicts != []
                                 && forall x :: x in outcome.conflicts ==> x in intervals && x.ConflictsWith(a)
      ensures outcome.Saved? ==> Saves(old(intervals), a, intervals)
      // While no stored interval lies inside another one, it aborts exactly on a conflict.
      ensures AllWellFormed(old(intervals)) && a.itv.WellFormed() && NoneInside(old(intervals)) ==>
              (outcome.Saved? <==> forall x :: x in old(intervals) ==> !x.ConflictsWith(a))
    {
      hide NoneInside, UppersSorted, AllWellFormed, Sorted, Access.ConflictsWith;
      UppersSortedIff(intervals);
      var conflicts, k, lo, hi := Conflicting(a);
      if conflicts != [] {
        assert conflicts[0] in conflicts;
        assert forall x :: x in intervals[lo..hi] ==> x in intervals;
        outcome := Abort(conflicts);
      } else {
        var at := UpperBound(a);
        UpperBoundUnique(intervals, a, at, k);
        InsertKeepsSorted(intervals, a, at);
        assert forall i :: lo <= i < hi ==> intervals[i] in intervals[lo..hi];
        intervals := intervals[..at] + [a] + intervals[at..];
        assert SavesAt(old(intervals), a, intervals, k, lo, hi);
        outcome := Saved;
      }
    }
  }

  lemma UpperBoundUnique(s: seq<Access>, a: Access, k: nat, l: nat)
    requires IsUpperBound(s, a, k) && IsUpperBound(s, a, l)
    ensures k == l
  {
    assert k < |s| ==> !NotAfter(s[k].itv, a.itv);
    assert l < |s| ==> !NotAfter(s[l].itv, a.itv);
  }

  lemma InsertKeepsSorted(s: seq<Access>, a: Access, k: nat)
    requires Sorted(s) && IsUpperBound(s, a, k)
    ensures Sorted(Inserted(s, a, k))
  {
    var t := Inserted(s, a, k);
    forall i, j | 0 <= i < j < |t| ensures NotAfter(t[i].itv, t[j].itv) {
      assert t[i] == if i < k then s[i] else if i == k then a else s[i - 1];
      assert t[j] == if j < k then s[j] else if j == k then a else s[j - 1];
    }
  }

  lemma InsertKeepsConflictFree(s: seq<Access>, a: Access, k: nat)
    requires k <= |s| && ConflictFree(s) && forall x :: x in s ==> !x.ConflictsWith(a)
    ensures ConflictFree(Inserted(s, a, k))
  {
    var t := Inserted(s, a, k);
    forall i, j | 0 <= i < j < |t| ensures !t[i].ConflictsWith(t[j]) {
      assert t[i] == if i < k then s[i] else if i == k then a else s[i - 1];
      assert t[j] == if j < k then s[j] else if j == k then a else s[j - 1];
      if i == k {
        assert !t[j].ConflictsWith(a);
        ConflictSymmetric(t[j], a);
      }
    }
  }

  lemma ConflictSymmetric(a: Access, b: Access)
    ensures a.ConflictsWith(b) <==> b.ConflictsWith(a)
  {
    assert Bits(a.kind) | Bits(b.kind) == Bits(b.kind) | Bits(a.kind);
  }

  /* Sequences of saves. */

  // The stores of a sequence of saves none of which aborts, from the empty store on.
  ghost predicate IsSaveRun(accesses: seq<Access>, stores: seq<seq<Access>>) {
    && |stores| == |accesses| + 1 && stores[0] == []
    && (forall i, j :: 0 <= i < j < |stores| && j == i + 1 ==> Saves(stores[i], accesses[i], stores[j]))
  }

  // A save keeps order and well-formedness ...
  lemma SaveKeeps(s: seq<Access>, a: Access, t: seq<Access>)
    requires Saves(s, a, t) && Sorted(s) && AllWellFormed(s) && a.itv.WellFormed()
    ensures Sorted(t) && AllWellFormed(t)
  {
    var k, lo, hi :| SavesAt(s, a, t, k, lo, hi);
    InsertKeepsSorted(s, a, k);
    forall i | 0 <= i < |t| ensures t[i].itv.WellFormed() {
      assert t[i] == if i < k then s[i] else if i == k then a else s[i - 1];
    }
  }

  // ... and upper bounds that are ordered after it were so before.
  lemma OrderedBefore(s: seq<Access>, a: Access, k: nat)
    requires k <= |s| && UppersSorted(Inserted(s, a, k))
    ensures UppersSorted(s)
  {
    var t := Inserted(s, a, k);
    forall i, j | 0 <= i < j < |s| ensures s[i].itv.up <= s[j].itv.up {
      var i', j' := if i < k then i else i + 1, if j < k then j else j + 1;
      assert t[i'] == s[i] && t[j'] == s[j];
    }
  }

  lemma SaveKeepsConflictFree(s: seq<Access>, a: Access, t: seq<Access>)
    requires Saves(s, a, t) && Sorted(s) && AllWellFormed(s) && a.itv.WellFormed()
    requires UppersSorted(t) && (UppersSorted(s) ==> ConflictFree(s))
    ensures ConflictFree(t)
  {
    var k, lo, hi :| SavesAt(s, a, t, k, lo, hi);
    OrderedBefore(s, a, k);
    ScanIsComplete(s, a, k, lo, hi);
    forall x | x in s ensures !x.ConflictsWith(a) {
      var i :| 0 <= i < |s| && s[i] == x;
    }
    InsertKeepsConflictFree(s, a, k);
  }

  lemma {:induction false} SaveRunKeeps(accesses: seq<Access>, stores: seq<seq<Access>>, n: nat)
    requires IsSaveRun(accesses, stores) && (forall a :: a in accesses ==> a.itv.WellFormed()) && n <= |accesses|
    ensures Sorted(stores[n]) && AllWellFormed(stores[n])
    ensures UppersSorted(stores[n]) ==> ConflictFree(stores[n])
  {
    if n > 0 {
      SaveRunKeeps(accesses, stores, n - 1);
      assert accesses[n - 1] in accesses;
      SaveKeeps(stores[n - 1], accesses[n - 1], stores[n]);
      if UppersSorted(stores[n]) {
        SaveKeepsConflictFree(stores[n - 1], accesses[n - 1], stores[n]);
      }
    }
  }

  // Any sequence of saves without an abort leaves a store free of conflicts, if only its final
  // upper bounds are ordered.
  lemma SaveRunIsConflictFree(accesses: seq<Access>, stores: seq<seq<Access>>)
    requires IsSaveRun(accesses, stores) && (forall a :: a in accesses ==> a.itv.WellFormed())
    requires UppersSorted(stores[|accesses|])
    ensures ConflictFree(stores[|accesses|])
  {
    SaveRunKeeps(accesses, stores, |accesses|);
  }

  lemma {:induction false} StoredWereSaved(accesses: seq<Access>, stores: seq<seq<Access>>, n: nat)
    requires IsSaveRun(accesses, stores) && n <= |accesses|
    ensures forall a :: a in stores[n] <==> a in accesses[..n]
  {
    if n > 0 {
      StoredWereSaved(accesses, stores, n - 1);
      var s, a, t := stores[n - 1], accesses[n - 1], stores[n];
      assert Saves(s, a, t);
      var k: nat, lo: nat, hi: nat :| SavesAt(s, a, t, k, lo, hi);
      assert s == s[..k] + s[k..];
      assert accesses[..n] == accesses[..n - 1] + [a];
    }
  }

  // So sequences of saves abort on every conflict if no access lies inside another one: without an
  // abort no two of the accesses conflict.
  lemma NoneInsideNoConflict(accesses: seq<Access>, stores: seq<seq<Access>>)
    requires IsSaveRun(accesses, stores) && (forall a :: a in accesses ==> a.itv.WellFormed()) && NoneInside(accesses)
    ensures ConflictFree(stores[|accesses|]) && forall a :: a in stores[|accesses|] <==> a in accesses
  {
    var n := |accesses|;
    SaveRunKeeps(accesses, stores, n);
    StoredWereSaved(accesses, stores, n);
    assert accesses[..n] == accesses;
    UppersSortedIff(stores[n]);
    SaveRunIsConflictFree(accesses, stores);
  }

  // An access saved behind all stored ones, when the last of them does not intersect it or all that
  // intersect it in a row at the end do not conflict.
  lemma SavedLast(s: seq<Access>, a: Access, lo: nat)
    requires lo <= |s| && (forall i :: 0 <= i < |s| ==> NotAfter(s[i].itv, a.itv))
    requires forall i :: lo <= i < |s| ==> s[i].itv.Intersects(a.itv) && !s[i].ConflictsWith(a)
    requires lo == 0 || !s[lo - 1].itv.Intersects(a.itv)
    ensures Saves(s, a, s + [a])
  {
    assert Inserted(s, a, |s|) == s + [a];
    assert SavesAt(s, a, s + [a], |s|, lo, |s|);
  }

  const LONG := Access(Interval(0, 10), LocalRead, 1)
  const SHORT := Access(Interval(2, 3), LocalRead, 2)
  const WRITE := Access(Interval(5, 5), RmaWrite, 3)

  lemma SaveLong()
    ensures Saves([], LONG, [LONG])
  {
    SavedLast([], LONG, 0);
    assert [] + [LONG] == [LONG];
  }

  lemma SaveShort()
    ensures Saves([LONG], SHORT, [LONG, SHORT])
  {
    SavedLast([LONG], SHORT, 0);
    assert [LONG] + [SHORT] == [LONG, SHORT];
  }

  lemma SaveWrite()
    ensures Saves([LONG, SHORT], WRITE, [LONG, SHORT, WRITE])
  {
    SavedLast([LONG, SHORT], WRITE, 2);
    assert [LONG, SHORT] + [WRITE] == [LONG, SHORT, WRITE];
  }

  lemma ThreeSaves(a: Access, b: Access, c: Access, s: seq<Access>, t: seq<Access>, u: seq<Access>)
    requires Saves([], a, s) && Saves(s, b, t) && Saves(t, c, u)
    ensures IsSaveRun([a, b, c], [[], s, t, u])
  {
    hide Saves;
    var accesses, stores := [a, b, c], [[], s, t, u];
    forall i, j | 0 <= i < j < |stores| && j == i + 1 ensures Saves(stores[i], accesses[i], stores[j]) {
      assert i == 0 || i == 1 || i == 2;
    }
  }

  lemma LongConflicts()
    ensures LONG.ConflictsWith(WRITE) && !ConflictFree([LONG, SHORT, WRITE])
  {
    var s := [LONG, SHORT, WRITE];
    assert s[0].ConflictsWith(s[2]);
  }

  // Three saves into an empty store, all without an abort, that leave a conflict in it: a long
  // read, a short read inside it, and a remote write behind the short one.
  lemma MissedConflict()
    ensures IsSaveRun([LONG, SHORT, WRITE], [[], [LONG], [LONG, SHORT], [LONG, SHORT, WRITE]])
    ensures LONG.ConflictsWith(WRITE) && !ConflictFree([LONG, SHORT, WRITE])
  {
    SaveLong();
    SaveShort();
    SaveWrite();
    LongConflicts();
    hide Saves, IsSaveRun, ConflictFree, Access.ConflictsWith;
    ThreeSaves(LONG, SHORT, WRITE, [LONG], [LONG, SHORT], [LONG, SHORT, WRITE]);
  }
}
