// Interval messages and what ranks hand to the reductions: logs, counts and sums.
module RmaLogs {

  // An interval message. The matching of messages looks at destination and tag only; the window, the
  // epoch and "at", how far its sender was in the calls that create and free windows, say where the
  // message comes from.
  datatype Msg = Msg(src: nat, dst: nat, tag: int, payload: int, win: nat, epoch: nat, at: nat)

  // What rank "from" has handed to the reduction rooted at "root" that closes an epoch.
  datatype Share = Share(win: nat, epoch: nat, root: nat, from: nat)

  // The messages of a log sent to rank "j" in epoch "e" of window "w".
  ghost predicate IsTo(m: Msg, w: nat, e: nat, j: nat) {
    m.win == w && m.epoch == e && m.dst == j
  }

  ghost function To(log: seq<Msg>, w: nat, e: nat, j: nat): seq<Msg> {
    if log == [] then []
    else
      var m := log[|log| - 1];
      To(log[..|log| - 1], w, e, j) + (if IsTo(m, w, e, j) then [m] else [])
  }

  // How many of them rank "i" sent.
  ghost function CountFrom(log: seq<Msg>, w: nat, e: nat, i: nat, j: nat): nat {
    if log == [] then 0
    else
      var m := log[|log| - 1];
      CountFrom(log[..|log| - 1], w, e, i, j) + (if IsTo(m, w, e, j) && m.src == i then 1 else 0)
  }

  lemma ToAppend(log: seq<Msg>, m: Msg, w: nat, e: nat, j: nat)
    ensures To(log + [m], w, e, j) == To(log, w, e, j) + (if IsTo(m, w, e, j) then [m] else [])
  {
    assert (log + [m])[..|log + [m]| - 1] == log;
  }

  lemma CountAppend(log: seq<Msg>, m: Msg, w: nat, e: nat, i: nat, j: nat)
    ensures CountFrom(log + [m], w, e, i, j) == CountFrom(log, w, e, i, j) + (if IsTo(m, w, e, j) && m.src == i then 1 else 0)
  {
    assert (log + [m])[..|log + [m]| - 1] == log;
  }

  lemma {:induction false} ToMultiplicity(log: seq<Msg>, w: nat, e: nat, j: nat, m: Msg)
    ensures multiset(To(log, w, e, j))[m] == if IsTo(m, w, e, j) then multiset(log)[m] else 0
  {
    if log != [] {
      var k := |log| - 1;
      ToMultiplicity(log[..k], w, e, j, m);
      assert log == log[..k] + [log[k]];
    }
  }

  lemma {:induction false} NoneTo(log: seq<Msg>, w: nat, e: nat, j: nat)
    requires forall m :: m in log ==> !IsTo(m, w, e, j)
    ensures To(log, w, e, j) == []
  {
    if log != [] {
      NoneTo(log[..|log| - 1], w, e, j);
    }
  }

  lemma {:induction false} NoneFrom(log: seq<Msg>, w: nat, e: nat, i: nat, j: nat)
    requires forall m :: m in log ==> !(IsTo(m, w, e, j) && m.src == i)
    ensures CountFrom(log, w, e, i, j) == 0
  {
    if log != [] {
      NoneFrom(log[..|log| - 1], w, e, i, j);
    }
  }

  ghost function CountSum(log: seq<Msg>, w: nat, e: nat, j: nat, n: nat): nat {
    if n == 0 then 0 else CountSum(log, w, e, j, n - 1) + CountFrom(log, w, e, n - 1, j)
  }

  lemma {:induction false} CountSumStep(log: seq<Msg>, m: Msg, w: nat, e: nat, j: nat, n: nat)
    ensures CountSum(log + [m], w, e, j, n) == CountSum(log, w, e, j, n) + (if IsTo(m, w, e, j) && m.src < n then 1 else 0)
  {
    if n > 0 {
      CountSumStep(log, m, w, e, j, n - 1);
      CountAppend(log, m, w, e, n - 1, j);
    }
  }

  lemma {:induction false} EmptyCountSum(w: nat, e: nat, j: nat, n: nat)
    ensures CountSum([], w, e, j, n) == 0
  {
    if n > 0 {
      EmptyCountSum(w, e, j, n - 1);
    }
  }

  // Summing over all senders counts every message once.
  lemma {:induction false} SendersPartition(log: seq<Msg>, w: nat, e: nat, j: nat, n: nat)
    requires forall m :: m in log ==> m.src < n
    ensures CountSum(log, w, e, j, n) == |To(log, w, e, j)|
  {
    if log == [] {
      EmptyCountSum(w, e, j, n);
    } else {
      var k := |log| - 1;
      SendersPartition(log[..k], w, e, j, n);
      CountSumStep(log[..k], log[k], w, e, j, n);
      assert log == log[..k] + [log[k]];
    }
  }

  lemma {:induction false} SharesAreCounts(shares: map<Share, nat>, log: seq<Msg>, w: nat, e: nat, root: nat, n: nat)
    requires forall i: nat :: i < n ==> Share(w, e, root, i) in shares && shares[Share(w, e, root, i)] == CountFrom(log, w, e, i, root)
    ensures ShareSum(shares, w, e, root, n) == CountSum(log, w, e, root, n)
  {
    if n > 0 {
      SharesAreCounts(shares, log, w, e, root, n - 1);
    }
  }

  // Two multisets of equal size, one inside the other, are equal.
  lemma SameSizeSame(a: multiset<Msg>, b: multiset<Msg>)
    requires a <= b && |a| == |b|
    ensures a == b
  {
    assert b == a + (b - a);
    assert |b - a| == 0;
  }

  // The sum of the shares of ranks below "n".
  ghost function ShareSum(shares: map<Share, nat>, w: nat, e: nat, root: nat, n: nat): nat {
    if n == 0 then 0
    else ShareSum(shares, w, e, root, n - 1) + (var k := Share(w, e, root, n - 1); if k in shares then shares[k] else 0)
  }

  lemma {:induction false} SumUnchanged(shares: map<Share, nat>, shares': map<Share, nat>, w: nat, e: nat, root: nat, n: nat)
    requires forall i: nat :: i < n ==> Share(w, e, root, i) in shares
    requires forall k :: k in shares ==> k in shares' && shares'[k] == shares[k]
    ensures ShareSum(shares', w, e, root, n) == ShareSum(shares, w, e, root, n)
  {
    if n > 0 {
      SumUnchanged(shares, shares', w, e, root, n - 1);
    }
  }
}
