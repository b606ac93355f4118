// Closing an epoch does not get stuck: once all ranks have begun to close it, some rank can always go
// on, and after finitely many steps all have left it.
module RmaClosing {
  import opened RmaWindows
  import opened RmaLogs
  import opened RmaProtocol
  import opened RmaInvariant
  import opened RmaRuns

  // ----- what has been handed to the reductions -----

  // With this record a rank has handed over its count for root "r" in epoch "e".
  ghost predicate HandedOver(l: Local, e: nat, r: nat) {
    l.Left(e) || (l.epoch == e && (l.phase.Draining? || (l.phase.Reducing? && r < l.phase.next)))
  }

  ghost predicate SharesThere(c: Config, s: System, w: nat, i: nat)
    requires HasLocal(c, s, w, i)
  {
    forall e: nat, r: nat :: 1 <= e && r < c.ranks && !c.LastFence(w, e) && HandedOver(s.local[(w, i)], e, r) ==>
      Share(w, e, r, i) in s.shares
  }

  ghost predicate AllSharesThere(c: Config, s: System) {
    forall w: nat, i: nat {:trigger HasLocal(c, s, w, i)} :: HasLocal(c, s, w, i) ==> SharesThere(c, s, w, i)
  }

  lemma WindowKeepsShares(c: Config, s: System, t: System)
    requires AllSharesThere(c, s) && WindowEffect(c, s, t)
    ensures AllSharesThere(c, t)
  {
    forall w: nat, i: nat | HasLocal(c, t, w, i) ensures SharesThere(c, t, w, i) {
      if (w, i) in s.local {
        assert HasLocal(c, s, w, i);
      }
    }
  }

  lemma EpochKeepsShares(c: Config, s: System, t: System, step: Step)
    requires LocalsOk(c, s) && AllSharesThere(c, s) && !OnWindows(step) && EpochNext(c, s, t, step)
    ensures AllSharesThere(c, t)
  {
    assert LocalOk(c, s, step.w, step.i);
    forall w: nat, i: nat | HasLocal(c, t, w, i) ensures SharesThere(c, t, w, i) {
      assert HasLocal(c, s, w, i);
    }
  }

  lemma {:induction false} RunShares(c: Config, states: seq<System>, steps: seq<Step>, k: nat)
    requires c.Valid() && c.Safe() && IsRun(c, states, steps) && k < |states|
    ensures AllSharesThere(c, states[k])
  {
    if k > 0 {
      RunShares(c, states, steps, k - 1);
      RunInv(c, states, steps, k - 1);
      RunStep(c, states, steps, k - 1);
      var s, t, step := states[k - 1], states[k], steps[k - 1];
      hide IsRun, WindowNext, EpochNext, AllSharesThere;
      if OnWindows(step) {
        WindowStepEffect(c, s, t, step);
        WindowKeepsShares(c, s, t);
      } else {
        EpochKeepsShares(c, s, t, step);
      }
    }
  }

  // ----- some rank can go on -----

  // Rank "i" is in the calls that close epoch "e" of window "w".
  ghost predicate Closing(c: Config, s: System, w: nat, e: nat, i: nat) {
    HasLocal(c, s, w, i) && s.local[(w, i)].epoch == e && (s.local[(w, i)].phase.Reducing? || s.local[(w, i)].phase.Draining?)
  }

  // It is, and in no other call, or it has left the epoch.
  ghost predicate ClosingOrLeft(c: Config, s: System, w: nat, e: nat, i: nat) {
    i < |s.ranks| && HasLocal(c, s, w, i) && (s.local[(w, i)].Left(e) || (Closing(c, s, w, e, i) && !s.ranks[i].waiting))
  }

  ghost predicate AllClosing(c: Config, s: System, w: nat, e: nat) {
    forall i {:trigger ClosingOrLeft(c, s, w, e, i)} :: 0 <= i < c.ranks ==> ClosingOrLeft(c, s, w, e, i)
  }

  predicate ClosingStep(step: Step) {
    step.Reduce? || step.EndReduce? || step.Receive? || step.LeaveEpoch?
  }

  // How many reductions a rank has been through; among ranks with the same number the root of the
  // next one comes last.
  ghost function Passed(c: Config, s: System, w: nat, e: nat, i: nat): nat {
    if Closing(c, s, w, e, i) && s.local[(w, i)].phase.Reducing? then
      var next := s.local[(w, i)].phase.next;
      2 * next + if next == i then 1 else 0
    else 2 * c.ranks + 2
  }

  // The rank that comes first in this order.
  lemma {:induction false} LeastPassed(c: Config, s: System, w: nat, e: nat, n: nat) returns (i: nat)
    requires 0 < n <= c.ranks
    ensures i < n && forall j :: 0 <= j < n ==> Passed(c, s, w, e, i) <= Passed(c, s, w, e, j)
  {
    if n == 1 {
      i := 0;
    } else {
      i := LeastPassed(c, s, w, e, n - 1);
      if Passed(c, s, w, e, n - 1) < Passed(c, s, w, e, i) {
        i := n - 1;
      }
    }
  }

  // The rank that has been through the fewest reductions is not held up by the next one: if it is the
  // root, all others have handed over their counts.
  lemma LeastCanReduce(c: Config, s: System, w: nat, e: nat, i: nat) returns (step: Step, t: System)
    requires LocalsOk(c, s) && AllSharesThere(c, s) && AllClosing(c, s, w, e) && 1 <= e
    requires |s.ranks| == c.ranks && i < c.ranks && w in s.ranks[i].ranges.ids
    requires Closing(c, s, w, e, i) && s.local[(w, i)].phase.Reducing?
    requires forall j :: 0 <= j < c.ranks ==> Passed(c, s, w, e, i) <= Passed(c, s, w, e, j)
    ensures Next(c, s, t, step) && step.w == w && step.i == i && ClosingStep(step)
  {
    assert ClosingOrLeft(c, s, w, e, i) && LocalOk(c, s, w, i);
    var k, l := (w, i), s.local[(w, i)];
    var root := l.phase.next;
    if root == c.ranks {
      step := EndReduce(w, i);
      t := s.(local := s.local[k := l.(phase := Draining)]);
    } else {
      step := Reduce(w, i);
      var shares := s.shares[Share(w, e, root, i) := l.sends[root]];
      if root == i {
        forall j: nat | j < c.ranks ensures Share(w, e, root, j) in shares {
          assert ClosingOrLeft(c, s, w, e, j) && SharesThere(c, s, w, j);
          assert Passed(c, s, w, e, i) <= Passed(c, s, w, e, j);
          assert j != i ==> HandedOver(s.local[(w, j)], e, root);
        }
        t := s.(local := s.local[k := l.(phase := Reducing(root + 1), value := ShareSum(shares, w, e, root, c.ranks))],
                shares := shares);
      } else {
        t := s.(local := s.local[k := l.(phase := Reducing(root + 1))], shares := shares);
      }
    }
  }

  // While some rank is closing the epoch and all others are too or have left it, one of them can go on.
  lemma SomeRankGoesOn(c: Config, s: System, w: nat, e: nat) returns (step: Step, t: System)
    requires c.Valid() && Inv(c, s) && AllSharesThere(c, s) && AllClosing(c, s, w, e) && 1 <= e
    requires SomeoneClosing(c, s, w, e)
    ensures Next(c, s, t, step) && step.w == w && ClosingStep(step) && Closing(c, s, w, e, step.i)
  {
    var some :| 0 <= some < c.ranks && Closing(c, s, w, e, some);
    var i := LeastPassed(c, s, w, e, c.ranks);
    assert Passed(c, s, w, e, i) <= Passed(c, s, w, e, some);
    hide Inv, Next, AllSharesThere, IsRun;
    InvParts(c, s);
    if Closing(c, s, w, e, i) && s.local[(w, i)].phase.Reducing? {
      DrainingIsAlive(c, s, w, i);
      step, t := LeastCanReduce(c, s, w, e, i);
    } else {
      assert ClosingOrLeft(c, s, w, e, some) && LocalOk(c, s, w, some);
      step, t := DrainingIsNotStuck(c, s, w, some);
    }
  }

  // ----- all ranks leave the epoch -----

  // What a rank has still to do: reductions, and messages to receive.
  ghost function Work(c: Config, s: System, w: nat, e: nat, i: nat): nat {
    if !Closing(c, s, w, e, i) then 0 else
      var l := s.local[(w, i)];
      var sent, received := |To(s.sent, w, e, i)|, |To(s.received, w, e, i)|;
      (if l.phase.Reducing? && l.phase.next <= c.ranks then c.ranks - l.phase.next + 2 else 1)
      + if received <= sent then sent - received else 0
  }

  ghost function TotalWork(c: Config, s: System, w: nat, e: nat, n: nat): nat {
    if n == 0 then 0 else TotalWork(c, s, w, e, n - 1) + Work(c, s, w, e, n - 1)
  }

  lemma {:induction false} LessWork(c: Config, s: System, t: System, w: nat, e: nat, i: nat, n: nat)
    requires forall j :: 0 <= j < n && j != i ==> Work(c, t, w, e, j) == Work(c, s, w, e, j)
    requires Work(c, t, w, e, i) < Work(c, s, w, e, i)
    ensures TotalWork(c, t, w, e, n) <= TotalWork(c, s, w, e, n)
    ensures i < n ==> TotalWork(c, t, w, e, n) < TotalWork(c, s, w, e, n)
  {
    if n > 0 {
      LessWork(c, s, t, w, e, i, n - 1);
    }
  }

  // Such a step is work done by one rank, and leaves the others where they are.
  lemma StepIsWork(c: Config, s: System, t: System, step: Step, w: nat, e: nat)
    requires c.Valid() && c.Safe() && Inv(c, s) && Inv(c, t)
    requires ClosingStep(step) && EpochNext(c, s, t, step) && step.w == w && Closing(c, s, w, e, step.i)
    ensures Work(c, t, w, e, step.i) < Work(c, s, w, e, step.i)
    ensures forall j :: 0 <= j && j != step.i ==> Work(c, t, w, e, j) == Work(c, s, w, e, j)
  {
    if step.Receive? {
      ReceiveMatches(c, s, t, step);
      ReceivedIsSent(c, t, w, e, step.i);
      hide Inv;
      ReceiveIsWork(c, s, t, step, w, e);
    } else {
      hide Inv;
      QuietStepIsWork(c, s, t, step, w, e);
    }
  }

  lemma QuietStepIsWork(c: Config, s: System, t: System, step: Step, w: nat, e: nat)
    requires (step.Reduce? || step.EndReduce? || step.LeaveEpoch?) && EpochNext(c, s, t, step)
    requires step.w == w && Closing(c, s, w, e, step.i)
    ensures Work(c, t, w, e, step.i) < Work(c, s, w, e, step.i)
    ensures forall j :: 0 <= j && j != step.i ==> Work(c, t, w, e, j) == Work(c, s, w, e, j)
  {
    assert t.sent == s.sent && t.received == s.received;
  }

  lemma ReceiveIsWork(c: Config, s: System, t: System, step: Step, w: nat, e: nat)
    requires step.Receive? && EpochNext(c, s, t, step) && step.w == w && Closing(c, s, w, e, step.i)
    requires IsTo(step.m, w, e, step.i) && |To(t.received, w, e, step.i)| <= |To(t.sent, w, e, step.i)|
    ensures Work(c, t, w, e, step.i) < Work(c, s, w, e, step.i)
    ensures forall j :: 0 <= j && j != step.i ==> Work(c, t, w, e, j) == Work(c, s, w, e, j)
  {
    assert t.received == s.received + [step.m] && t.sent == s.sent;
    forall j: nat ensures To(t.received, w, e, j) == To(s.received, w, e, j) + if j == step.i then [step.m] else [] {
      ToAppend(s.received, step.m, w, e, j);
    }
  }

  lemma ReceivedIsSent(c: Config, s: System, w: nat, e: nat, i: nat)
    requires LogsOk(c, s)
    ensures |To(s.received, w, e, i)| <= |To(s.sent, w, e, i)|
  {
    ReceivedWithinSent(c, s, w, e, i);
    var a, b := multiset(To(s.received, w, e, i)), multiset(To(s.sent, w, e, i));
    assert b == a + (b - a);
  }

  lemma StaysClosing(c: Config, s: System, t: System, step: Step, w: nat, e: nat)
    requires AllClosing(c, s, w, e) && ClosingStep(step) && EpochNext(c, s, t, step) && step.w == w
    requires Closing(c, s, w, e, step.i)
    ensures AllClosing(c, t, w, e)
  {
    forall i | 0 <= i < c.ranks ensures ClosingOrLeft(c, t, w, e, i) {
      assert ClosingOrLeft(c, s, w, e, i);
    }
  }

  ghost predicate SomeoneClosing(c: Config, s: System, w: nat, e: nat) {
    exists i :: 0 <= i < c.ranks && Closing(c, s, w, e, i)
  }

  ghost predicate EveryoneLeft(c: Config, s: System, w: nat, e: nat) {
    forall i: nat :: i < c.ranks ==> (w, i) in s.local && s.local[(w, i)].Left(e)
  }

  lemma NobodyClosing(c: Config, s: System, w: nat, e: nat)
    requires AllClosing(c, s, w, e) && !SomeoneClosing(c, s, w, e)
    ensures EveryoneLeft(c, s, w, e)
  {
    forall i: nat | i < c.ranks ensures (w, i) in s.local && s.local[(w, i)].Left(e) {
      assert ClosingOrLeft(c, s, w, e, i);
    }
  }

  lemma StepDoesWork(c: Config, s: System, t: System, step: Step, w: nat, e: nat)
    requires c.Valid() && c.Safe() && Inv(c, s) && Inv(c, t) && AllClosing(c, s, w, e)
    requires ClosingStep(step) && Next(c, s, t, step) && step.w == w && Closing(c, s, w, e, step.i)
    ensures AllClosing(c, t, w, e) && TotalWork(c, t, w, e, c.ranks) < TotalWork(c, s, w, e, c.ranks)
  {
    assert step.i < c.ranks;
    hide Inv, EpochNext, AllClosing, Closing, Work;
    StepIsWork(c, s, t, step, w, e);
    LessWork(c, s, t, w, e, step.i, c.ranks);
    StaysClosing(c, s, t, step, w, e);
  }

  lemma OneStepFurther(c: Config, states: seq<System>, steps: seq<Step>, w: nat, e: nat) returns (t: System, step: Step)
    requires c.Valid() && c.Safe() && IsRun(c, states, steps) && 1 <= e && AllClosing(c, states[|steps|], w, e)
    requires SomeoneClosing(c, states[|steps|], w, e)
    ensures IsRun(c, states + [t], steps + [step]) && AllClosing(c, t, w, e) && ClosingStep(step) && step.w == w
    ensures TotalWork(c, t, w, e, c.ranks) < TotalWork(c, states[|steps|], w, e, c.ranks)
  {
    assert |states| == |steps| + 1;
    hide IsRun, Inv, AllSharesThere, Next, AllClosing, Closing;
    RunInv(c, states, steps, |steps|);
    RunShares(c, states, steps, |steps|);
    var s := states[|steps|];
    step, t := SomeRankGoesOn(c, s, w, e);
    NextKeepsInv(c, s, t, step);
    StepDoesWork(c, s, t, step, w, e);
    ExtendRun(c, states, steps, t, step);
  }

  // The theorem: from every state of every run in which all ranks have begun to close an epoch, or
  // left it, the run can go on, by steps that close it and no others, until all have left it.
  lemma {:induction false} EveryEpochCloses(c: Config, states: seq<System>, steps: seq<Step>, w: nat, e: nat)
    returns (states': seq<System>, steps': seq<Step>)
    requires c.Valid() && c.Safe() && IsRun(c, states, steps) && 1 <= e && AllClosing(c, states[|steps|], w, e)
    ensures IsRun(c, states', steps') && states <= states' && steps <= steps'
    ensures forall k :: |steps| <= k < |steps'| ==> ClosingStep(steps'[k]) && steps'[k].w == w
    ensures EveryoneLeft(c, states'[|steps'|], w, e)
    decreases TotalWork(c, states[|steps|], w, e, c.ranks)
  {
    assert |states| == |steps| + 1;
    hide IsRun, AllClosing, EveryoneLeft, SomeoneClosing, ClosingStep;
    if SomeoneClosing(c, states[|steps|], w, e) {
      var t, step := OneStepFurther(c, states, steps, w, e);
      states', steps' := EveryEpochCloses(c, states + [t], steps + [step], w, e);
    } else {
      states', steps' := states, steps;
      NobodyClosing(c, states[|steps|], w, e);
    }
  }

  lemma InvParts(c: Config, s: System)
    requires Inv(c, s)
    ensures RanksOk(c, s) && WindowsOk(c, s) && LocalsOk(c, s) && LogsOk(c, s)
  {
  }
}
