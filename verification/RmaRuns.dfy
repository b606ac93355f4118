// Runs of the protocol: what every checker thread has received when its epoch ends.
module RmaRuns {
  import opened RmaWindows
  import opened RmaLogs
  import opened RmaProtocol
  import opened RmaInvariant

  ghost predicate IsRun(c: Config, states: seq<System>, steps: seq<Step>) {
    && |states| == |steps| + 1 && Init(c, states[0])
    && (forall k, l :: 0 <= k < l < |states| && l == k + 1 ==> Next(c, states[k], states[l], steps[k]))
  }

  lemma {:induction false} RunInv(c: Config, states: seq<System>, steps: seq<Step>, k: nat)
    requires c.Valid() && c.Safe() && IsRun(c, states, steps) && k < |states|
    ensures Inv(c, states[k])
  {
    hide Inv, Next, Init;
    if k == 0 {
      InitInv(c, states[0]);
    } else {
      RunInv(c, states, steps, k - 1);
      NextKeepsInv(c, states[k - 1], states[k], steps[k - 1]);
    }
  }

  lemma ExtendRun(c: Config, states: seq<System>, steps: seq<Step>, t: System, step: Step)
    requires IsRun(c, states, steps) && Next(c, states[|steps|], t, step)
    ensures IsRun(c, states + [t], steps + [step])
  {
    hide Next, Init;
    var states', steps' := states + [t], steps + [step];
    forall k, l | 0 <= k < l < |states'| && l == k + 1 ensures Next(c, states'[k], states'[l], steps'[k]) {
      if l < |states| {
        assert Next(c, states[k], states[l], steps[k]);
      }
    }
  }

  lemma RunStep(c: Config, states: seq<System>, steps: seq<Step>, k: nat)
    requires IsRun(c, states, steps) && k < |steps|
    ensures Next(c, states[k], states[k + 1], steps[k])
  {
    hide Next, Init;
  }

  lemma LeavingIsExact(c: Config, s: System, t: System, step: Step)
    requires Inv(c, s) && Next(c, s, t, step) && step.LeaveEpoch?
    ensures (step.w, step.i) in s.local
    ensures var e := s.local[(step.w, step.i)].epoch;
            Sealed(c, t, step.w, e, step.i) && Consumed(t, step.w, e, step.i)
  {
    LeaveConsumes(c, s, t, step);
  }

  lemma StaysExact(c: Config, s: System, t: System, step: Step, w: nat, e: nat, i: nat)
    requires c.Valid() && c.Safe() && Inv(c, s) && Inv(c, t) && Next(c, s, t, step)
    requires Sealed(c, s, w, e, i) && Consumed(s, w, e, i)
    ensures Sealed(c, t, w, e, i) && Consumed(t, w, e, i)
  {
    LogsBalance(c, t);
    hide RanksOk, WindowsOk, LogsOk, LocalsOk, SharesOk, EpochsDone, Next, Sealed, Consumed;
    ConsumedStays(c, s, t, step, w, e, i);
  }

  // The main theorem: in every run, from the moment a rank leaves an epoch on, what its checker
  // thread has received in the epoch is exactly what was ever sent to it in the epoch. Windows may
  // be created and freed, and ranges be used again, while it runs.
  lemma {:induction false} EpochsAreExact(c: Config, states: seq<System>, steps: seq<Step>, k: nat, l: nat)
    requires c.Valid() && c.Safe() && IsRun(c, states, steps) && k < l < |states| && steps[k].LeaveEpoch?
    ensures (steps[k].w, steps[k].i) in states[k].local
    ensures var w, e, i := steps[k].w, states[k].local[(steps[k].w, steps[k].i)].epoch, steps[k].i;
            Sealed(c, states[l], w, e, i) && Consumed(states[l], w, e, i)
    decreases l
  {
    hide Inv, Next, Init, Consumed, Sealed;
    RunInv(c, states, steps, k);
    RunStep(c, states, steps, k);
    LeavingIsExact(c, states[k], states[k + 1], steps[k]);
    if l > k + 1 {
      EpochsAreExact(c, states, steps, k, l - 1);
      RunInv(c, states, steps, l - 1);
      RunInv(c, states, steps, l);
      RunStep(c, states, steps, l - 1);
      var w, e, i := steps[k].w, states[k].local[(steps[k].w, steps[k].i)].epoch, steps[k].i;
      StaysExact(c, states[l - 1], states[l], steps[l - 1], w, e, i);
    }
  }

  // Ranks that have begun the same calls hold the same ranges.
  lemma RanksAgree(c: Config, states: seq<System>, steps: seq<Step>, k: nat, i: nat, j: nat)
    requires c.Valid() && c.Safe() && IsRun(c, states, steps) && k < |states|
    requires i < c.ranks && j < c.ranks
    ensures |states[k].ranks| == c.ranks
    ensures states[k].ranks[i].calls == states[k].ranks[j].calls ==> states[k].ranks[i].ranges == states[k].ranks[j].ranges
  {
    RunInv(c, states, steps, k);
    assert RankOk(c, states[k], i) && RankOk(c, states[k], j);
  }

  // A checker thread takes only messages of its own window and epoch.
  ghost predicate TakesItsOwn(s: System, step: Step) {
    step.Receive? && (step.w, step.i) in s.local ==>
      IsTo(step.m, step.w, s.local[(step.w, step.i)].epoch, step.i)
  }

  ghost predicate NeverLeaks(c: Config) {
    forall states: seq<System>, steps: seq<Step>, k: nat {:trigger IsRun(c, states, steps), TakesItsOwn(states[k], steps[k])} ::
      IsRun(c, states, steps) && k < |steps| ==> TakesItsOwn(states[k], steps[k])
  }

  lemma NothingLeaks(c: Config)
    requires c.Valid() && c.Safe()
    ensures NeverLeaks(c)
  {
    forall states: seq<System>, steps: seq<Step>, k: nat | IsRun(c, states, steps) && k < |steps| ensures TakesItsOwn(states[k], steps[k]) {
      RunInv(c, states, steps, k);
      assert Next(c, states[k], states[k + 1], steps[k]);
      hide Inv, IsRun, EpochNext, WindowNext;
      if steps[k].Receive? {
        ReceiveMatches(c, states[k], states[k + 1], steps[k]);
      }
    }
  }

  // A rank that waits for its checker thread is not stuck: either it can leave, or a message for
  // it is under way.
  lemma DrainingIsNotStuck(c: Config, s: System, w: nat, i: nat) returns (step: Step, t: System)
    requires c.Valid() && Inv(c, s) && HasLocal(c, s, w, i) && s.local[(w, i)].phase == Draining && !s.ranks[i].waiting
    ensures Next(c, s, t, step) && step.w == w && step.i == i && (step.LeaveEpoch? || step.Receive?)
  {
    var l := s.local[(w, i)];
    ValueIsExact(c, s, w, i);
    ReceivedWithinSent(c, s, w, l.epoch, i);
    DrainingIsAlive(c, s, w, i);
    if l.count == l.value {
      step := LeaveEpoch(w, i);
      t := s.(local := s.local[(w, i) := l.(phase := Idle, count := 0)]);
    } else {
      var m := MissingMessage(s, w, l.epoch, i);
      MissingMatches(c, s, m, w, i);
      step := Receive(w, i, m);
      t := s.(local := s.local[(w, i) := l.(count := l.count + 1)], net := s.net - multiset{m}, received := s.received + [m]);
    }
  }

  lemma DrainingIsAlive(c: Config, s: System, w: nat, i: nat)
    requires RanksOk(c, s) && WindowsOk(c, s) && HasLocal(c, s, w, i) && s.local[(w, i)].phase != Freed
    ensures i < |s.ranks| && w in s.ranks[i].ranges.ids && s.ranks[i].calls <= |c.script|
    ensures s.ranks[i].ranges == After(c.script, s.ranks[i].calls)
  {
    hide After, Created;
    assert RankOk(c, s, i) && WindowOk(c, s, w, i);
  }

  lemma MissingMessage(s: System, w: nat, e: nat, j: nat) returns (m: Msg)
    requires |To(s.received, w, e, j)| != |To(s.sent, w, e, j)|
    requires multiset(To(s.received, w, e, j)) <= multiset(To(s.sent, w, e, j))
    requires forall m :: IsTo(m, w, e, j) ==> multiset(To(s.sent, w, e, j))[m] == multiset(To(s.received, w, e, j))[m] + s.net[m]
    ensures m in s.net && IsTo(m, w, e, j)
  {
    var a, b := multiset(To(s.received, w, e, j)), multiset(To(s.sent, w, e, j));
    assert a != b;
    m :| a[m] != b[m];
    ToMultiplicity(s.sent, w, e, j, m);
  }

  // A message for an epoch carries the tag that its receiver listens to: the window has had one
  // range since it was created.
  lemma MissingMatches(c: Config, s: System, m: Msg, w: nat, i: nat)
    requires c.Valid() && Inv(c, s) && HasLocal(c, s, w, i) && s.local[(w, i)].phase == Draining
    requires m in s.net && IsTo(m, w, s.local[(w, i)].epoch, i)
    requires i < |s.ranks| && w in s.ranks[i].ranges.ids
    ensures m.tag == Tag(s.ranks[i].ranges.ids[w], s.local[(w, i)].epoch)
  {
    assert m in multiset(s.sent);
    assert MsgOk(c, s, m);
    DrainingIsAlive(c, s, w, i);
    var n := s.ranks[i].calls;
    hide After, Created, ValidScript;
    if n <= m.at {
      AliveUntilFreed(c.script, w, n, m.at);
    } else {
      AliveUntilFreed(c.script, w, m.at, n);
    }
  }
}
