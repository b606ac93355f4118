// When messages leak from one epoch or window into another: runs in which they do, and exactly when
// there is none.
module RmaLeaks {
  import opened RmaWindows
  import opened RmaLogs
  import opened RmaProtocol
  import opened RmaRuns

  // ----- more epochs than a range has tags -----

  // One rank with two windows.
  function TwoWindows(limit: nat): Config {
    Config(1, [Create, Create], limit, map[], true)
  }

  function TwoRanges(): Ranges {
    Take(Take(NoRanges(), 0), 1)
  }

  lemma TwoWindowsIsValid(limit: nat)
    ensures TwoWindows(limit).Valid()
    ensures Created([Create, Create], 1) == 1
    ensures TwoRanges().ids == map[0 := 0, 1 := 1]
  {
    var script := [Create, Create];
    assert After(script, 0) == NoRanges();
    assert After(script, 1) == Take(NoRanges(), 0) by {
      AfterStep(script, 0);
    }
    var zeros := NoRanges().used;
    assert FirstFree(zeros, 0) == 0;
    assert FirstFree(zeros[0 := 1], 0) == 1;
    assert After(script, 1).ids == map[0 := 0];
    forall n | 0 <= n < |script| ensures ValidAt(script, n) {
      assert n == 0 || n == 1;
    }
  }

  function NewLocal(): Local {
    Local(Idle, 0, Zeros(1), 0, 0)
  }

  function TwoSystem(shares: map<Share, nat>, l: Local, m: Local): System {
    System([Rank(2, false, TwoRanges())], map[(0, 0) := l, (1, 0) := m], multiset{}, shares, [], [])
  }

  // Both windows created.
  lemma StartRun(limit: nat) returns (states: seq<System>, steps: seq<Step>)
    ensures IsRun(TwoWindows(limit), states, steps) && states[|steps|] == TwoSystem(map[], NewLocal(), NewLocal())
  {
    TwoWindowsIsValid(limit);
    var c := TwoWindows(limit);
    var s0 := System([Rank(0, false, NoRanges())], map[], multiset{}, map[], [], []);
    var s1 := s0.(ranks := [Rank(1, false, Take(NoRanges(), 0))], local := map[(0, 0) := NewLocal()]);
    var s2 := TwoSystem(map[], NewLocal(), NewLocal());
    states, steps := [s0], [];
    assert IsRun(c, states, steps);
    assert Created(c.script, 0) == 0;
    hide Take, NoRanges, Created;
    assert s0.ranks[0 := Rank(1, false, Take(NoRanges(), 0))] == s1.ranks;
    assert WindowNext(c, s0, s1, CreateWindow(0, 0));
    ExtendRun(c, states, steps, s1, CreateWindow(0, 0));
    states, steps := states + [s1], steps + [CreateWindow(0, 0)];
    assert s1.ranks[0 := Rank(2, false, Take(Take(NoRanges(), 0), 1))] == s2.ranks;
    assert s1.local[(1, 0) := NewLocal()] == s2.local;
    assert WindowNext(c, s1, s2, CreateWindow(1, 0));
    ExtendRun(c, states, steps, s2, CreateWindow(1, 0));
    states, steps := states + [s2], steps + [CreateWindow(1, 0)];
  }

  // One step on the first window that leaves the rest of the system alone.
  lemma FirstWindowStep(limit: nat, states: seq<System>, steps: seq<Step>, shares: map<Share, nat>, l: Local, m: Local,
                        shares': map<Share, nat>, l': Local, step: Step)
    returns (states': seq<System>, steps': seq<Step>)
    requires IsRun(TwoWindows(limit), states, steps) && states[|steps|] == TwoSystem(shares, l, m)
    requires !OnWindows(step) && EpochNext(TwoWindows(limit), TwoSystem(shares, l, m), TwoSystem(shares', l', m), step)
    ensures IsRun(TwoWindows(limit), states', steps') && states'[|steps'|] == TwoSystem(shares', l', m)
  {
    assert |states| == |steps| + 1;
    hide EpochNext, IsRun;
    ExtendRun(TwoWindows(limit), states, steps, TwoSystem(shares', l', m), step);
    states', steps' := states + [TwoSystem(shares', l', m)], steps + [step];
  }

  lemma FirstWindowNext(limit: nat, shares: map<Share, nat>, l: Local, m: Local, l': Local)
    ensures TwoSystem(shares, l, m).local[(0, 0) := l'] == TwoSystem(shares, l', m).local
    ensures HasLocal(TwoWindows(limit), TwoSystem(shares, l, m), 0, 0) <==> |l.sends| == 1
    ensures 0 in TwoSystem(shares, l, m).ranks[0].ranges.ids && TwoSystem(shares, l, m).ranks[0].ranges.ids[0] == 0
  {
    TwoWindowsIsValid(limit);
  }

  // An epoch without messages on the first window: opened and brought to its reductions ...
  lemma EmptyEpochOpens(limit: nat, states: seq<System>, steps: seq<Step>, shares: map<Share, nat>, e: nat, v: nat, m: Local)
    returns (states': seq<System>, steps': seq<Step>)
    requires IsRun(TwoWindows(limit), states, steps) && e < limit
    requires states[|steps|] == TwoSystem(shares, Local(Idle, e, Zeros(1), 0, v), m)
    ensures IsRun(TwoWindows(limit), states', steps')
    ensures states'[|steps'|] == TwoSystem(shares, Local(Reducing(0), e + 1, Zeros(1), 0, v), m)
  {
    var idle, open := Local(Idle, e, Zeros(1), 0, v), Local(Open, e + 1, Zeros(1), 0, v);
    var reducing := open.(phase := Reducing(0));
    hide IsRun, TwoRanges;
    FirstWindowNext(limit, shares, idle, m, open);
    states', steps' := FirstWindowStep(limit, states, steps, shares, idle, m, shares, open, OpenEpoch(0, 0));
    FirstWindowNext(limit, shares, open, m, reducing);
    states', steps' := FirstWindowStep(limit, states', steps', shares, open, m, shares, reducing, BeginClose(0, 0));
  }

  // ... through them ...
  lemma EmptyEpochReduces(limit: nat, states: seq<System>, steps: seq<Step>, shares: map<Share, nat>, e: nat, v: nat, m: Local)
    returns (states': seq<System>, steps': seq<Step>, shares': map<Share, nat>)
    requires IsRun(TwoWindows(limit), states, steps)
    requires states[|steps|] == TwoSystem(shares, Local(Reducing(0), e, Zeros(1), 0, v), m)
    ensures IsRun(TwoWindows(limit), states', steps')
    ensures states'[|steps'|] == TwoSystem(shares', Local(Reducing(1), e, Zeros(1), 0, 0), m)
  {
    var reducing, reduced := Local(Reducing(0), e, Zeros(1), 0, v), Local(Reducing(1), e, Zeros(1), 0, 0);
    shares' := shares[Share(0, e, 0, 0) := 0];
    hide IsRun, TwoRanges;
    FirstWindowNext(limit, shares, reducing, m, reduced);
    FirstWindowNext(limit, shares', reducing, m, reduced);
    OneShare(shares, e);
    states', steps' := FirstWindowStep(limit, states, steps, shares, reducing, m, shares', reduced, Reduce(0, 0));
  }

  // ... and to its end.
  lemma EmptyEpoch(limit: nat, states: seq<System>, steps: seq<Step>, shares: map<Share, nat>, e: nat, v: nat, m: Local)
    returns (states': seq<System>, steps': seq<Step>, shares': map<Share, nat>)
    requires IsRun(TwoWindows(limit), states, steps) && e < limit
    requires states[|steps|] == TwoSystem(shares, Local(Idle, e, Zeros(1), 0, v), m)
    ensures IsRun(TwoWindows(limit), states', steps')
    ensures states'[|steps'|] == TwoSystem(shares', Local(Idle, e + 1, Zeros(1), 0, 0), m)
  {
    hide IsRun, TwoRanges;
    states', steps' := EmptyEpochOpens(limit, states, steps, shares, e, v, m);
    states', steps', shares' := EmptyEpochReduces(limit, states', steps', shares, e + 1, v, m);
    var reduced := Local(Reducing(1), e + 1, Zeros(1), 0, 0);
    var draining, done := reduced.(phase := Draining), Local(Idle, e + 1, Zeros(1), 0, 0);
    FirstWindowNext(limit, shares', reduced, m, draining);
    states', steps' := FirstWindowStep(limit, states', steps', shares', reduced, m, shares', draining, EndReduce(0, 0));
    FirstWindowNext(limit, shares', draining, m, done);
    states', steps' := FirstWindowStep(limit, states', steps', shares', draining, m, shares', done, LeaveEpoch(0, 0));
  }

  lemma OneShare(shares: map<Share, nat>, e: nat)
    ensures ShareSum(shares[Share(0, e, 0, 0) := 0], 0, e, 0, 1) == 0
  {
    assert ShareSum(shares[Share(0, e, 0, 0) := 0], 0, e, 0, 0) == 0;
  }

  lemma {:induction false} ManyEpochs(limit: nat, n: nat) returns (states: seq<System>, steps: seq<Step>, shares: map<Share, nat>)
    requires n <= limit
    ensures IsRun(TwoWindows(limit), states, steps)
    ensures states[|steps|] == TwoSystem(shares, Local(Idle, n, Zeros(1), 0, 0), NewLocal())
  {
    hide IsRun;
    if n == 0 {
      shares := map[];
      states, steps := StartRun(limit);
    } else {
      states, steps, shares := ManyEpochs(limit, n - 1);
      states, steps, shares := EmptyEpoch(limit, states, steps, shares, n - 1, 0, NewLocal());
    }
  }

  // A run in which the first window, in epoch 1025, takes a message of the second window's epoch 1.
  lemma LeakingRun(limit: nat) returns (states: seq<System>, steps: seq<Step>)
    requires limit > MAX_EPOCH
    ensures IsRun(TwoWindows(limit), states, steps) && |steps| > 0 && !TakesItsOwn(states[|steps| - 1], steps[|steps| - 1])
  {
    var c := TwoWindows(limit);
    TwoWindowsIsValid(limit);
    var shares;
    states, steps, shares := ManyEpochs(limit, MAX_EPOCH);
    var e := MAX_EPOCH + 1;
    var idle, open := Local(Idle, MAX_EPOCH, Zeros(1), 0, 0), Local(Open, e, Zeros(1), 0, 0);
    var second := Local(Open, 1, Zeros(1), 0, 0);
    hide IsRun, TwoRanges;
    FirstWindowNext(limit, shares, idle, NewLocal(), open);
    states, steps := FirstWindowStep(limit, states, steps, shares, idle, NewLocal(), shares, open, OpenEpoch(0, 0));
    var s1, s2 := TwoSystem(shares, open, NewLocal()), TwoSystem(shares, open, second);
    assert s1.local[(1, 0) := second] == s2.local;
    ExtendRun(c, states, steps, s2, OpenEpoch(1, 0));
    states, steps := states + [s2], steps + [OpenEpoch(1, 0)];
    var m := Msg(0, 0, Tag(1, 1), 0, 1, 1, 2);
    var s3 := s2.(local := s2.local[(1, 0) := second.(sends := second.sends[0 := second.sends[0] + 1])],
                  net := s2.net + multiset{m}, sent := s2.sent + [m]);
    assert EpochNext(c, s2, s3, Send(1, 0, 0, 0));
    ExtendRun(c, states, steps, s3, Send(1, 0, 0, 0));
    states, steps := states + [s3], steps + [Send(1, 0, 0, 0)];
    assert s3.local[(0, 0)] == open;
    assert m.tag == Tag(0, e);
    var s4 := s3.(local := s3.local[(0, 0) := open.(count := 1)], net := s3.net - multiset{m}, received := s3.received + [m]);
    assert EpochNext(c, s3, s4, Receive(0, 0, m));
    ExtendRun(c, states, steps, s4, Receive(0, 0, m));
    states, steps := states + [s4], steps + [Receive(0, 0, m)];
  }

  // ----- messages in an epoch that is closed without counting -----

  // One rank; a window used with fences is freed and another one created.
  function FencedWindow(limit: nat): Config {
    Config(1, [Create, Free(0), Create], limit, map[0 := 1], false)
  }

  function OneRange(): Ranges {
    Take(NoRanges(), 0)
  }

  function NextRange(): Ranges {
    Take(Give(OneRange(), 0), 1)
  }

  lemma FencedWindowIsValid(limit: nat)
    ensures FencedWindow(limit).Valid()
    ensures OneRange().ids == map[0 := 0] && |OneRange().used| == MAX_WIN && NextRange().ids == map[1 := 0]
    ensures Created([Create, Free(0), Create], 0) == 0 && Created([Create, Free(0), Create], 2) == 1
  {
    var script := [Create, Free(0), Create];
    assert Created(script, 1) == 1;
    assert After(script, 0) == NoRanges();
    assert After(script, 1) == OneRange() by {
      AfterStep(script, 0);
    }
    assert After(script, 2) == Give(OneRange(), 0) by {
      AfterStep(script, 1);
    }
    var zeros := NoRanges().used;
    assert FirstFree(zeros, 0) == 0 && OneRange().used == zeros[0 := 1];
    assert Give(OneRange(), 0).used == zeros;
    assert Give(OneRange(), 0).ids == map[];
    forall n | 0 <= n < |script| ensures ValidAt(script, n) {
      assert n == 0 || n == 1 || n == 2;
    }
  }

  function FencedSystem(r: Rank, local: map<(nat, nat), Local>, net: multiset<Msg>, sent: seq<Msg>): System {
    System([r], local, net, map[], sent, [])
  }

  // A message that the window sends in its last epoch.
  function LateMessage(): Msg {
    Msg(0, 0, Tag(0, 1), 0, 0, 1, 1)
  }

  // The first window opens its epoch and sends the message.
  lemma FencedStart(limit: nat) returns (states: seq<System>, steps: seq<Step>)
    requires limit > 0
    ensures IsRun(FencedWindow(limit), states, steps)
    ensures states[|steps|] == FencedSystem(Rank(1, false, OneRange()), map[(0, 0) := Local(Open, 1, [1], 0, 0)],
                                            multiset{LateMessage()}, [LateMessage()])
  {
    FencedWindowIsValid(limit);
    var c, r, m := FencedWindow(limit), Rank(1, false, OneRange()), LateMessage();
    var s0 := FencedSystem(Rank(0, false, NoRanges()), map[], multiset{}, []);
    var s1 := FencedSystem(r, map[(0, 0) := NewLocal()], multiset{}, []);
    var s2 := FencedSystem(r, map[(0, 0) := Local(Open, 1, Zeros(1), 0, 0)], multiset{}, []);
    var s3 := FencedSystem(r, map[(0, 0) := Local(Open, 1, [1], 0, 0)], multiset{m}, [m]);
    states, steps := [s0], [];
    assert IsRun(c, states, steps);
    hide OneRange, NoRanges, Created, IsRun;
    assert s0.ranks[0 := r] == s1.ranks;
    assert WindowNext(c, s0, s1, CreateWindow(0, 0));
    ExtendRun(c, states, steps, s1, CreateWindow(0, 0));
    states, steps := states + [s1], steps + [CreateWindow(0, 0)];
    assert s1.local[(0, 0) := Local(Open, 1, Zeros(1), 0, 0)] == s2.local;
    assert EpochNext(c, s1, s2, OpenEpoch(0, 0));
    ExtendRun(c, states, steps, s2, OpenEpoch(0, 0));
    states, steps := states + [s2], steps + [OpenEpoch(0, 0)];
    assert Zeros(1)[0 := 1] == [1];
    assert s2.local[(0, 0) := Local(Open, 1, [1], 0, 0)] == s3.local;
    assert EpochNext(c, s2, s3, Send(0, 0, 0, 0));
    ExtendRun(c, states, steps, s3, Send(0, 0, 0, 0));
    states, steps := states + [s3], steps + [Send(0, 0, 0, 0)];
  }

  // It is freed while the message is under way.
  lemma FencedFree(limit: nat) returns (states: seq<System>, steps: seq<Step>)
    requires limit > 0
    ensures IsRun(FencedWindow(limit), states, steps)
    ensures states[|steps|] == FencedSystem(Rank(2, false, Give(OneRange(), 0)), map[(0, 0) := Local(Freed, 1, [1], 0, 0)],
                                            multiset{LateMessage()}, [LateMessage()])
  {
    FencedWindowIsValid(limit);
    var c, r, m, l := FencedWindow(limit), Rank(1, false, OneRange()), LateMessage(), Local(Draining, 1, [1], 0, 0);
    states, steps := FencedStart(limit);
    var s3 := states[|steps|];
    var s4 := FencedSystem(r, map[(0, 0) := l], multiset{m}, [m]);
    var s5 := FencedSystem(r, map[(0, 0) := l.(phase := Idle)], multiset{m}, [m]);
    var s6 := FencedSystem(Rank(2, true, Give(OneRange(), 0)), map[(0, 0) := l.(phase := Freed)], multiset{m}, [m]);
    var s7 := s6.(ranks := [Rank(2, false, Give(OneRange(), 0))]);
    hide OneRange, NoRanges, Created, IsRun, Give;
    assert s3.local[(0, 0) := l] == s4.local;
    assert EpochNext(c, s3, s4, CloseLast(0, 0));
    ExtendRun(c, states, steps, s4, CloseLast(0, 0));
    states, steps := states + [s4], steps + [CloseLast(0, 0)];
    assert s4.local[(0, 0) := l.(phase := Idle)] == s5.local;
    assert EpochNext(c, s4, s5, LeaveEpoch(0, 0));
    ExtendRun(c, states, steps, s5, LeaveEpoch(0, 0));
    states, steps := states + [s5], steps + [LeaveEpoch(0, 0)];
    assert s5.local[(0, 0) := l.(phase := Freed)] == s6.local && s5.ranks[0 := s6.ranks[0]] == s6.ranks;
    assert WindowNext(c, s5, s6, EnterFree(0, 0));
    ExtendRun(c, states, steps, s6, EnterFree(0, 0));
    states, steps := states + [s6], steps + [EnterFree(0, 0)];
    assert s6.ranks[0 := s7.ranks[0]] == s7.ranks;
    assert WindowNext(c, s6, s7, ReturnFree(0, 0));
    ExtendRun(c, states, steps, s7, ReturnFree(0, 0));
    states, steps := states + [s7], steps + [ReturnFree(0, 0)];
  }

  // A run in which a new window takes the freed window's range, and in its first epoch the message.
  lemma LeakingFence(limit: nat) returns (states: seq<System>, steps: seq<Step>)
    requires limit > 0
    ensures IsRun(FencedWindow(limit), states, steps) && |steps| > 0 && !TakesItsOwn(states[|steps| - 1], steps[|steps| - 1])
  {
    FencedWindowIsValid(limit);
    var c, m, old0 := FencedWindow(limit), LateMessage(), Local(Freed, 1, [1], 0, 0);
    states, steps := FencedFree(limit);
    var r, open := Rank(3, false, NextRange()), Local(Open, 1, Zeros(1), 0, 0);
    var s7 := states[|steps|];
    var s8 := FencedSystem(r, map[(0, 0) := old0, (1, 0) := NewLocal()], multiset{m}, [m]);
    var s9 := FencedSystem(r, map[(0, 0) := old0, (1, 0) := open], multiset{m}, [m]);
    var s10 := s9.(local := s9.local[(1, 0) := open.(count := 1)], net := s9.net - multiset{m}, received := [m]);
    hide OneRange, NextRange, Created, IsRun, Give;
    assert s7.ranks[0 := r] == s8.ranks && s7.local[(1, 0) := NewLocal()] == s8.local;
    assert r.ranges == Take(s7.ranks[0].ranges, 1) by {
      NextRangeTakes();
    }
    assert WindowNext(c, s7, s8, CreateWindow(1, 0));
    ExtendRun(c, states, steps, s8, CreateWindow(1, 0));
    states, steps := states + [s8], steps + [CreateWindow(1, 0)];
    assert s8.local[(1, 0) := open] == s9.local;
    assert EpochNext(c, s8, s9, OpenEpoch(1, 0));
    ExtendRun(c, states, steps, s9, OpenEpoch(1, 0));
    states, steps := states + [s9], steps + [OpenEpoch(1, 0)];
    assert s9.local[(1, 0)] == open;
    assert EpochNext(c, s9, s10, Receive(1, 0, m));
    ExtendRun(c, states, steps, s10, Receive(1, 0, m));
    states, steps := states + [s10], steps + [Receive(1, 0, m)];
  }

  lemma NextRangeTakes()
    ensures 0 in OneRange().ids && 0 <= OneRange().ids[0] < |OneRange().used| && NextRange() == Take(Give(OneRange(), 0), 1)
  {
    FencedWindowIsValid(0);
  }

  // ----- exactly when nothing leaks -----

  // Whatever windows are created and freed, nothing leaks exactly up to 1024 epochs for each window
  // and when nothing is sent in an epoch that is closed without counting.
  lemma NeverLeaksIff(limit: nat, quiet: bool)
    ensures (forall c: Config :: c.Valid() && c.limit == limit && c.quiet == quiet ==> NeverLeaks(c)) <==>
            limit <= 1024 && (quiet || limit == 0)
  {
    hide NeverLeaks, IsRun;
    if limit == 0 {
      forall c: Config | c.Valid() && c.limit == limit ensures NeverLeaks(c) {
        NoEpochNoLeak(c);
      }
    } else if limit <= MAX_EPOCH && quiet {
      forall c: Config | c.Valid() && c.limit == limit && c.quiet ensures NeverLeaks(c) {
        NothingLeaks(c);
      }
    } else if !quiet {
      FencedWindowIsValid(limit);
      var states, steps := LeakingFence(limit);
      LeakMeans(FencedWindow(limit), states, steps);
    } else {
      TwoWindowsIsValid(limit);
      var states, steps := LeakingRun(limit);
      LeakMeans(TwoWindows(limit), states, steps);
    }
  }

  ghost predicate NobodyActive(s: System) {
    forall x :: x in s.local ==> !s.local[x].Active()
  }

  lemma NobodyBecomesActive(c: Config, s: System, t: System, step: Step)
    requires c.limit == 0 && NobodyActive(s) && Next(c, s, t, step)
    ensures NobodyActive(t)
  {
  }

  // Without epochs no rank is ever active.
  lemma {:induction false} NobodyActiveInRun(c: Config, states: seq<System>, steps: seq<Step>, k: nat)
    requires c.limit == 0 && IsRun(c, states, steps) && k < |states|
    ensures NobodyActive(states[k])
  {
    if k > 0 {
      hide IsRun, Next, NobodyActive;
      assert |states| == |steps| + 1 by {
        RunLength(c, states, steps);
      }
      NobodyActiveInRun(c, states, steps, k - 1);
      RunStep(c, states, steps, k - 1);
      NobodyBecomesActive(c, states[k - 1], states[k], steps[k - 1]);
    }
  }

  lemma RunLength(c: Config, states: seq<System>, steps: seq<Step>)
    requires IsRun(c, states, steps)
    ensures |states| == |steps| + 1
  {
  }

  lemma NoEpochNoLeak(c: Config)
    requires c.limit == 0
    ensures NeverLeaks(c)
  {
    forall states: seq<System>, steps: seq<Step>, k: nat | IsRun(c, states, steps) && k < |steps| ensures TakesItsOwn(states[k], steps[k]) {
      NobodyActiveInRun(c, states, steps, k);
      RunStep(c, states, steps, k);
    }
  }

  lemma LeakMeans(c: Config, states: seq<System>, steps: seq<Step>)
    requires IsRun(c, states, steps) && |steps| > 0 && !TakesItsOwn(states[|steps| - 1], steps[|steps| - 1])
    ensures !NeverLeaks(c)
  {
    hide IsRun;
  }
}
