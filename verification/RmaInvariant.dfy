// Every step of the protocol keeps its invariant.
module RmaInvariant {
  import opened RmaWindows
  import opened RmaLogs
  import opened RmaProtocol

  // ----- creating and freeing windows -----

  lemma BeganStays(s: System, t: System, f: nat)
    requires |s.ranks| == |t.ranks| && forall j :: 0 <= j < |s.ranks| ==> s.ranks[j].calls <= t.ranks[j].calls
    requires AllBegan(s, f)
    ensures AllBegan(t, f)
  {
  }

  // What such a step does besides: logs and shares stay, and so does what ranks keep, but for one
  // window that is freed or created.
  ghost predicate WindowEffect(c: Config, s: System, t: System) {
    && |s.ranks| == |t.ranks| && (forall j :: 0 <= j < |s.ranks| ==> s.ranks[j].calls <= t.ranks[j].calls)
    && t.net == s.net && t.shares == s.shares && t.sent == s.sent && t.received == s.received
    && s.local.Keys <= t.local.Keys
    && (forall k :: k in s.local ==>
          t.local[k] == s.local[k] || (s.local[k].phase == Idle && t.local[k] == s.local[k].(phase := Freed)))
    && (forall k :: k in t.local && k !in s.local ==> t.local[k] == Local(Idle, 0, Zeros(c.ranks), 0, 0))
  }

  lemma WindowStepEffect(c: Config, s: System, t: System, step: Step)
    requires Inv(c, s) && OnWindows(step) && WindowNext(c, s, t, step)
    ensures WindowEffect(c, s, t)
  {
    hide LogsOk, LocalsOk, SharesOk, EpochsDone, Take, Give, After;
    if step.CreateWindow? {
      assert WindowOk(c, s, step.w, step.i);
    }
  }

  // The rank that makes the call follows the script.
  lemma CallFollowsScript(c: Config, s: System, t: System, step: Step)
    requires c.Valid() && RanksOk(c, s) && OnWindows(step) && WindowNext(c, s, t, step)
    ensures |t.ranks| == c.ranks
    ensures var r := t.ranks[step.i];
      r.calls <= |c.script| && r.ranges == After(c.script, r.calls) && (r.waiting ==> r.calls > 0 && c.script[r.calls - 1].Free?)
  {
    assert RankOk(c, s, step.i);
    var n := s.ranks[step.i].calls;
    if !step.ReturnFree? {
      AfterStep(c.script, n);
    }
    hide Take, Give, After, Created, ValidScript;
  }

  // What a rank has come back from, it came back from before, or it is the call it waited in.
  lemma CameBackBefore(c: Config, s: System, t: System, step: Step, i: nat, f: nat)
    requires RanksOk(c, s) && OnWindows(step) && WindowNext(c, s, t, step) && WindowEffect(c, s, t)
    requires i < c.ranks && i < |t.ranks| && f < |c.script| && c.script[f].Free? && CameBack(t.ranks[i], f)
    ensures AllBegan(t, f)
  {
    assert RankOk(c, s, i);
    hide After, Take, Give, Created;
    assert CameBack(s.ranks[i], f) || (step.ReturnFree? && i == step.i && f == s.ranks[i].calls - 1);
    BeganStays(s, t, f);
  }

  lemma WindowKeepsRank(c: Config, s: System, t: System, step: Step, i: nat)
    requires c.Valid() && RanksOk(c, s) && OnWindows(step) && WindowNext(c, s, t, step) && i < c.ranks
    requires WindowEffect(c, s, t)
    ensures i < |t.ranks| && RankOk(c, t, i)
  {
    hide Take, Give, After, Created, ValidScript, WindowEffect;
    CallFollowsScript(c, s, t, step);
    assert i != step.i ==> t.ranks[i] == s.ranks[i] && RankOk(c, s, i);
    hide WindowNext, RanksOk;
    forall f: nat | f < |c.script| && c.script[f].Free? && CameBack(t.ranks[i], f) ensures AllBegan(t, f) {
      CameBackBefore(c, s, t, step, i, f);
    }
  }

  lemma WindowKeepsRanks(c: Config, s: System, t: System, step: Step)
    requires c.Valid() && RanksOk(c, s) && OnWindows(step) && WindowNext(c, s, t, step) && WindowEffect(c, s, t)
    ensures RanksOk(c, t)
  {
    hide RankOk;
    forall i | 0 <= i < c.ranks ensures RankOk(c, t, i) {
      WindowKeepsRank(c, s, t, step, i);
    }
  }

  lemma CreateCall(script: seq<Collective>, n: nat, w: nat)
    requires ValidScript(script) && n < |script| && script[n].Create?
    ensures Created(script, n + 1) == Created(script, n) + 1
    ensures w in After(script, n + 1).ids <==> w in After(script, n).ids || w == Created(script, n)
    ensures Created(script, n) !in After(script, n).ids
  {
    AfterStep(script, n);
    AfterHeld(script, n);
    hide After, Created, Held, ValidScript;
  }

  lemma FreeCall(script: seq<Collective>, n: nat, w: nat)
    requires ValidScript(script) && n < |script| && script[n].Free?
    ensures Created(script, n + 1) == Created(script, n)
    ensures w in After(script, n + 1).ids <==> w in After(script, n).ids && w != script[n].w
  {
    AfterStep(script, n);
    OthersStay(script, w, n);
    AfterHeld(script, n);
    hide After, Created, Held, ValidScript;
    if script[n] != Free(w) {
      assert script[n].w != w;
    }
  }

  lemma WindowKeepsOwn(c: Config, s: System, t: System, step: Step, w: nat)
    requires c.Valid() && (step.CreateWindow? || step.EnterFree?) && WindowNext(c, s, t, step)
    requires RankOk(c, s, step.i) && WindowOk(c, s, w, step.i) && WindowOk(c, s, step.w, step.i)
    ensures t.ranks[step.i].calls == s.ranks[step.i].calls + 1 <= |c.script| && WindowOk(c, t, w, step.i)
  {
    var n := s.ranks[step.i].calls;
    if step.CreateWindow? {
      CreateCall(c.script, n, w);
    } else {
      FreeCall(c.script, n, w);
    }
    hide After, Created, ValidScript, Give, Take, RankOk;
  }

  lemma WindowKeepsWindow(c: Config, s: System, t: System, step: Step, w: nat, i: nat)
    requires c.Valid() && RanksOk(c, s) && RanksOk(c, t) && WindowsOk(c, s) && i < c.ranks
    requires OnWindows(step) && WindowNext(c, s, t, step)
    ensures RankOk(c, t, i) && WindowOk(c, t, w, i)
  {
    assert RankOk(c, s, i) && RankOk(c, t, i) && WindowOk(c, s, w, i) && WindowOk(c, s, step.w, step.i);
    hide RankOk, After, Created, ValidScript;
    if i == step.i && !step.ReturnFree? {
      WindowKeepsOwn(c, s, t, step, w);
    } else {
      assert t.ranks[i].calls == s.ranks[i].calls;
      assert (w, i) in t.local <==> (w, i) in s.local;
      assert (w, i) in t.local ==> t.local[(w, i)] == s.local[(w, i)];
    }
  }

  lemma WindowKeepsWindows(c: Config, s: System, t: System, step: Step)
    requires c.Valid() && RanksOk(c, s) && RanksOk(c, t) && WindowsOk(c, s)
    requires OnWindows(step) && WindowNext(c, s, t, step)
    ensures WindowsOk(c, t)
  {
    assert forall k :: k in t.local ==> k.1 < c.ranks;
    hide WindowNext, RankOk, WindowOk;
    forall w: nat, i: nat | i < c.ranks ensures RankOk(c, t, i) && WindowOk(c, t, w, i) {
      WindowKeepsWindow(c, s, t, step, w, i);
    }
  }

  lemma WindowKeepsLogs(c: Config, s: System, t: System)
    requires LogsOk(c, s) && WindowEffect(c, s, t)
    ensures LogsOk(c, t)
  {
    hide After;
    forall m | m in t.sent ensures MsgOk(c, t, m) {
      assert MsgOk(c, s, m);
      forall f: nat | f < m.at && c.script[f].Free? ensures AllBegan(t, f) {
        BeganStays(s, t, f);
      }
    }
  }

  lemma WindowKeepsRest(c: Config, s: System, t: System)
    requires LocalsOk(c, s) && SharesOk(c, s) && EpochsDone(c, s) && WindowEffect(c, s, t)
    ensures LocalsOk(c, t) && SharesOk(c, t) && EpochsDone(c, t)
  {
    forall w: nat, i: nat | HasLocal(c, t, w, i) ensures LocalOk(c, t, w, i) {
      assert (w, i) in s.local ==> HasLocal(c, s, w, i) && LocalOk(c, s, w, i);
    }
    forall k | k in t.shares ensures ShareOk(c, t, k) {
      assert ShareOk(c, s, k);
    }
    forall w: nat, i: nat, e: nat | HasLocal(c, t, w, i) && 1 <= e && t.local[(w, i)].Left(e)
      ensures Sealed(c, t, w, e, i) && Consumed(t, w, e, i)
    {
      assert HasLocal(c, s, w, i) && s.local[(w, i)].Left(e);
      assert Consumed(s, w, e, i);
    }
  }

  lemma WindowKeepsInv(c: Config, s: System, t: System, step: Step)
    requires c.Valid() && Inv(c, s) && OnWindows(step) && WindowNext(c, s, t, step)
    ensures Inv(c, t)
  {
    WindowStepEffect(c, s, t, step);
    hide RanksOk, LogsOk, LocalsOk, SharesOk, EpochsDone, WindowEffect, WindowNext, ValidScript;
    WindowKeepsRanks(c, s, t, step);
    WindowKeepsWindows(c, s, t, step);
    WindowKeepsLogs(c, s, t);
    WindowKeepsRest(c, s, t);
  }

  // ----- epochs -----

  // One rank's record of one window changes; it is alive before and after.
  ghost predicate EpochEffect(c: Config, s: System, t: System, step: Step) {
    && t.ranks == s.ranks && HasLocal(c, s, step.w, step.i)
    && (step.w, step.i) in t.local
    && var l, l' := s.local[(step.w, step.i)], t.local[(step.w, step.i)];
    && t.local == s.local[(step.w, step.i) := l']
    && l.phase != Freed && l'.phase != Freed && |l'.sends| == |l.sends| && l.epoch <= l'.epoch
  }

  lemma EpochStepEffect(c: Config, s: System, t: System, step: Step)
    requires RanksOk(c, s) && WindowsOk(c, s) && !OnWindows(step) && EpochNext(c, s, t, step)
    ensures EpochEffect(c, s, t, step)
  {
    hide After;
    assert RankOk(c, s, step.i) && WindowOk(c, s, step.w, step.i);
  }

  lemma EpochKeepsWindows(c: Config, s: System, t: System, step: Step)
    requires RanksOk(c, s) && WindowsOk(c, s) && EpochEffect(c, s, t, step)
    ensures RanksOk(c, t) && WindowsOk(c, t)
  {
    hide After, Created;
    forall i | 0 <= i < c.ranks ensures RankOk(c, t, i) {
      assert RankOk(c, s, i);
      assert forall f :: AllBegan(s, f) ==> AllBegan(t, f);
    }
    forall w: nat, i: nat | i < c.ranks ensures RankOk(c, t, i) && WindowOk(c, t, w, i) {
      assert RankOk(c, s, i) && WindowOk(c, s, w, i);
    }
  }

  lemma MsgStays(c: Config, s: System, t: System, step: Step, m: Msg)
    requires MsgOk(c, s, m) && EpochEffect(c, s, t, step)
    ensures MsgOk(c, t, m)
  {
    hide After;
    assert forall f :: AllBegan(s, f) ==> AllBegan(t, f);
  }

  // Logs that do not change, or only by what is sent or received, stay as they should be.
  lemma QuietKeepsLogs(c: Config, s: System, t: System, step: Step)
    requires LogsOk(c, s) && EpochEffect(c, s, t, step) && t.sent == s.sent && t.received == s.received && t.net == s.net
    ensures LogsOk(c, t)
  {
    hide MsgOk;
    forall m | m in t.sent ensures MsgOk(c, t, m) {
      assert MsgOk(c, s, m);
      MsgStays(c, s, t, step, m);
    }
  }

  // Steps that only move one rank along, without touching messages or shares.
  lemma QuietStepKeeps(c: Config, s: System, t: System, step: Step)
    requires Inv(c, s) && (step.BeginClose? || step.CloseLast? || step.EndReduce? || step.LeaveEpoch?) && EpochNext(c, s, t, step)
    ensures LogsOk(c, t) && LocalsOk(c, t) && SharesOk(c, t)
  {
    EpochStepEffect(c, s, t, step);
    QuietKeepsLogs(c, s, t, step);
    hide LogsOk, RanksOk, WindowsOk, EpochsDone;
    forall w: nat, i: nat | HasLocal(c, t, w, i) ensures LocalOk(c, t, w, i) {
      assert HasLocal(c, s, w, i);
    }
    forall k | k in t.shares ensures ShareOk(c, t, k) {
      assert ShareOk(c, s, k);
    }
  }

  lemma OpenKeeps(c: Config, s: System, t: System, step: Step)
    requires Inv(c, s) && step.OpenEpoch? && EpochNext(c, s, t, step)
    ensures LogsOk(c, t) && LocalsOk(c, t) && SharesOk(c, t)
  {
    EpochStepEffect(c, s, t, step);
    QuietKeepsLogs(c, s, t, step);
    NothingInNewEpoch(c, s, t, step);
    hide LogsOk, RanksOk, WindowsOk, EpochsDone;
    forall w: nat, i: nat | HasLocal(c, t, w, i) ensures LocalOk(c, t, w, i) {
      assert HasLocal(c, s, w, i);
    }
    forall k | k in t.shares ensures ShareOk(c, t, k) {
      assert ShareOk(c, s, k);
    }
  }

  lemma NothingInNewEpoch(c: Config, s: System, t: System, step: Step)
    requires LogsOk(c, s) && step.OpenEpoch? && EpochNext(c, s, t, step)
    ensures var e := s.local[(step.w, step.i)].epoch + 1;
      To(t.received, step.w, e, step.i) == [] && forall j :: 0 <= j < c.ranks ==> CountFrom(t.sent, step.w, e, step.i, j) == 0
  {
    var e := s.local[(step.w, step.i)].epoch + 1;
    NoneTo(t.received, step.w, e, step.i);
    forall j | 0 <= j < c.ranks ensures CountFrom(t.sent, step.w, e, step.i, j) == 0 {
      forall m | m in t.sent ensures !(IsTo(m, step.w, e, j) && m.src == step.i) {
        assert MsgOk(c, s, m);
      }
      NoneFrom(t.sent, step.w, e, step.i, j);
    }
  }

  // The new message is as it should be: its sender waits in no call, so all ranks have begun what it
  // has freed.
  lemma SentMsgOk(c: Config, s: System, t: System, step: Step)
    requires c.quiet && RanksOk(c, s) && WindowsOk(c, s) && LocalsOk(c, s) && step.Send? && EpochNext(c, s, t, step)
    ensures |t.sent| > 0 && t.sent == s.sent + [t.sent[|t.sent| - 1]] && MsgOk(c, t, t.sent[|t.sent| - 1])
  {
    hide After;
    var m := t.sent[|t.sent| - 1];
    var r := s.ranks[step.i];
    assert RankOk(c, s, step.i) && LocalOk(c, s, step.w, step.i);
    forall f: nat | f < m.at && c.script[f].Free? ensures AllBegan(t, f) {
      assert CameBack(r, f);
      assert AllBegan(s, f);
    }
  }

  lemma SendKeeps(c: Config, s: System, t: System, step: Step)
    requires c.quiet && Inv(c, s) && step.Send? && EpochNext(c, s, t, step)
    ensures LogsOk(c, t) && LocalsOk(c, t) && SharesOk(c, t)
  {
    EpochStepEffect(c, s, t, step);
    SentMsgOk(c, s, t, step);
    var m := t.sent[|t.sent| - 1];
    assert multiset(t.sent) == multiset(s.sent) + multiset{m};
    hide RanksOk, WindowsOk, EpochsDone, MsgOk;
    forall n | n in t.sent ensures MsgOk(c, t, n) {
      if n in s.sent {
        assert MsgOk(c, s, n);
        MsgStays(c, s, t, step, n);
      }
    }
    SendKeepsLocals(c, s, t, step, m);
    forall k | k in t.shares ensures ShareOk(c, t, k) {
      assert ShareOk(c, s, k);
      CountAppend(s.sent, m, k.win, k.epoch, k.from, k.root);
    }
  }

  lemma SendKeepsLocals(c: Config, s: System, t: System, step: Step, m: Msg)
    requires LocalsOk(c, s) && step.Send? && EpochNext(c, s, t, step) && t.sent == s.sent + [m]
    ensures LocalsOk(c, t)
  {
    forall w: nat, i: nat | HasLocal(c, t, w, i) ensures LocalOk(c, t, w, i) {
      assert HasLocal(c, s, w, i) && LocalOk(c, s, w, i);
      forall j | 0 <= j < c.ranks && t.local[(w, i)].Active()
        ensures t.local[(w, i)].sends[j] == CountFrom(t.sent, w, t.local[(w, i)].epoch, i, j)
      {
        CountAppend(s.sent, m, w, s.local[(w, i)].epoch, i, j);
      }
    }
  }

  // Once its sender and its receiver have freed the window, a message has been consumed.
  lemma FreedIsConsumed(c: Config, s: System, m: Msg)
    requires RanksOk(c, s) && WindowsOk(c, s) && SharesOk(c, s) && EpochsDone(c, s) && MsgOk(c, s, m)
    requires (m.win, m.src) in s.local && (m.win, m.dst) in s.local
    requires s.local[(m.win, m.src)].phase == Freed && s.local[(m.win, m.dst)].phase == Freed
    ensures m !in s.net
  {
    var e := m.epoch;
    assert 1 <= e <= s.local[(m.win, m.src)].epoch && m.src < c.ranks && m.dst < c.ranks;
    hide MsgOk, After, Created, Consumed;
    assert RankOk(c, s, m.src) && RankOk(c, s, m.dst);
    assert WindowOk(c, s, m.win, m.src) && WindowOk(c, s, m.win, m.dst);
    assert HasLocal(c, s, m.win, m.src) && s.local[(m.win, m.src)].Left(e);
    assert Consumed(s, m.win, e, m.src) && Sealed(c, s, m.win, e, m.src);
    assert ShareOk(c, s, Share(m.win, e, m.src, m.dst));
    assert HasLocal(c, s, m.win, m.dst) && s.local[(m.win, m.dst)].Left(e);
    assert Consumed(s, m.win, e, m.dst);
    ConsumedIsNotUnderWay(s, m);
  }

  lemma ConsumedIsNotUnderWay(s: System, m: Msg)
    requires Consumed(s, m.win, m.epoch, m.dst)
    ensures m !in s.net
  {
    assert IsTo(m, m.win, m.epoch, m.dst);
  }

  // A window's earlier namesake: no message of a window whose range has been given away and taken
  // again is under way.
  lemma SameRangeSameWindow(c: Config, s: System, m: Msg, w: nat, i: nat)
    requires c.Valid() && Inv(c, s) && m in s.net && m.dst == i && HasLocal(c, s, w, i)
    requires i < |s.ranks| && w in s.ranks[i].ranges.ids
    requires MsgOk(c, s, m) && After(c.script, m.at).ids[m.win] == s.ranks[i].ranges.ids[w]
    ensures m.win == w
  {
    assert RankOk(c, s, i) && RankOk(c, s, m.src);
    var n := s.ranks[i].calls;
    hide After, Created, ValidScript;
    if m.win != w {
      if n <= m.at {
        // Its sender had come back from freeing "w", so this rank has begun to free it.
        var f := ReuseIsAfterFree(c.script, w, n, m.win, m.at);
      } else {
        // This rank has come back from freeing the message's window, so its sender has freed it.
        var f := ReuseIsAfterFree(c.script, m.win, m.at, w, n);
        assert CameBack(s.ranks[i], f);
        assert AllBegan(s, f);
        FreedByAll(c, s, m.win, m.at, f, m.src);
        FreedByAll(c, s, m.win, m.at, f, i);
        FreedIsConsumed(c, s, m);
      }
    }
  }

  // A rank that has begun to free a window keeps it as freed.
  lemma FreedByAll(c: Config, s: System, w: nat, n: nat, f: nat, j: nat)
    requires c.Valid() && RanksOk(c, s) && WindowsOk(c, s) && j < c.ranks
    requires n <= f < |c.script| && w in After(c.script, n).ids && c.script[f] == Free(w) && f < s.ranks[j].calls
    ensures (w, j) in s.local && s.local[(w, j)].phase == Freed
  {
    assert RankOk(c, s, j) && WindowOk(c, s, w, j);
    hide After, Created, ValidScript;
    AliveUntilFreed(c.script, w, n, s.ranks[j].calls);
    assert FreedBetween(c.script, w, n, s.ranks[j].calls);
  }

  // A received message belongs to the window and the epoch it is received in.
  lemma ReceiveMatches(c: Config, s: System, t: System, step: Step)
    requires c.Valid() && c.Safe() && Inv(c, s) && step.Receive? && EpochNext(c, s, t, step)
    ensures IsTo(step.m, step.w, s.local[(step.w, step.i)].epoch, step.i) && step.m in s.sent
  {
    var m, w, i := step.m, step.w, step.i;
    assert m in multiset(s.sent);
    assert MsgOk(c, s, m);
    assert HasLocal(c, s, w, i) && LocalOk(c, s, w, i);
    hide MsgOk, After, Inv, LocalOk;
    TagsDiffer(s.ranks[i].ranges.ids[w], s.local[(w, i)].epoch, After(c.script, m.at).ids[m.win], m.epoch);
    SameRangeSameWindow(c, s, m, w, i);
  }

  lemma ReceiveKeepsLogs(c: Config, s: System, t: System, step: Step)
    requires LogsOk(c, s) && EpochEffect(c, s, t, step) && step.Receive? && EpochNext(c, s, t, step)
    requires IsTo(step.m, step.w, s.local[(step.w, step.i)].epoch, step.i)
    ensures LogsOk(c, t)
  {
    assert t.received == s.received + [step.m];
    assert multiset(t.received) == multiset(s.received) + multiset{step.m};
    hide MsgOk;
    forall n | n in t.sent ensures MsgOk(c, t, n) {
      assert MsgOk(c, s, n);
      MsgStays(c, s, t, step, n);
    }
  }

  lemma ReceiveKeepsRest(c: Config, s: System, t: System, step: Step)
    requires LocalsOk(c, s) && SharesOk(c, s) && step.Receive? && EpochNext(c, s, t, step)
    requires IsTo(step.m, step.w, s.local[(step.w, step.i)].epoch, step.i)
    ensures LocalsOk(c, t) && SharesOk(c, t)
  {
    var m := step.m;
    assert t.received == s.received + [m];
    forall w: nat, i: nat | HasLocal(c, t, w, i) ensures LocalOk(c, t, w, i) {
      assert HasLocal(c, s, w, i);
      ToAppend(s.received, m, w, s.local[(w, i)].epoch, i);
    }
    forall k | k in t.shares ensures ShareOk(c, t, k) {
      assert ShareOk(c, s, k);
    }
  }

  lemma ReceiveKeeps(c: Config, s: System, t: System, step: Step)
    requires c.Valid() && c.Safe() && Inv(c, s) && step.Receive? && EpochNext(c, s, t, step)
    ensures LogsOk(c, t) && LocalsOk(c, t) && SharesOk(c, t)
  {
    ReceiveMatches(c, s, t, step);
    EpochStepEffect(c, s, t, step);
    hide RanksOk, WindowsOk, EpochsDone, LogsOk, LocalsOk, SharesOk, EpochNext, EpochEffect, ValidScript;
    ReceiveKeepsLogs(c, s, t, step);
    ReceiveKeepsRest(c, s, t, step);
  }

  lemma ReduceKeepsShares(c: Config, s: System, t: System, step: Step, k: Share)
    requires LocalsOk(c, s) && SharesOk(c, s) && step.Reduce? && EpochNext(c, s, t, step) && k in t.shares
    ensures ShareOk(c, t, k)
    ensures k in s.shares ==> t.shares[k] == s.shares[k]
  {
    assert LocalOk(c, s, step.w, step.i);
    if k in s.shares {
      assert ShareOk(c, s, k);
    }
  }

  lemma ReduceKeeps(c: Config, s: System, t: System, step: Step)
    requires Inv(c, s) && step.Reduce? && EpochNext(c, s, t, step)
    ensures LogsOk(c, t) && LocalsOk(c, t) && SharesOk(c, t)
  {
    EpochStepEffect(c, s, t, step);
    QuietKeepsLogs(c, s, t, step);
    hide LogsOk, RanksOk, WindowsOk, EpochsDone;
    forall k | k in t.shares ensures ShareOk(c, t, k) && (k in s.shares ==> t.shares[k] == s.shares[k]) {
      ReduceKeepsShares(c, s, t, step, k);
    }
    forall w: nat, i: nat | HasLocal(c, t, w, i) ensures LocalOk(c, t, w, i) {
      assert HasLocal(c, s, w, i) && LocalOk(c, s, w, i);
      var e := s.local[(w, i)].epoch;
      if AllShared(c, s.shares, w, e, i) {
        SumUnchanged(s.shares, t.shares, w, e, i, c.ranks);
      }
    }
  }

  // ----- what a closed epoch has consumed -----

  lemma SealedStays(c: Config, s: System, t: System, step: Step, w: nat, e: nat, j: nat)
    requires c.quiet && SharesOk(c, s) && !OnWindows(step) && EpochNext(c, s, t, step) && Sealed(c, s, w, e, j)
    ensures Sealed(c, t, w, e, j) && To(t.sent, w, e, j) == To(s.sent, w, e, j)
  {
    if step.Send? {
      var m := t.sent[|t.sent| - 1];
      assert t.sent == s.sent + [m];
      assert c.LastFence(w, e) || ShareOk(c, s, Share(w, e, j, step.i));
      ToAppend(s.sent, m, w, e, j);
    }
  }

  lemma ReceivedWithinSent(c: Config, s: System, w: nat, e: nat, j: nat)
    requires multiset(s.sent) == multiset(s.received) + s.net
    ensures multiset(To(s.received, w, e, j)) <= multiset(To(s.sent, w, e, j))
    ensures forall m :: IsTo(m, w, e, j) ==> multiset(To(s.sent, w, e, j))[m] == multiset(To(s.received, w, e, j))[m] + s.net[m]
  {
    forall m ensures multiset(To(s.received, w, e, j))[m] <= multiset(To(s.sent, w, e, j))[m]
                  && (IsTo(m, w, e, j) ==> multiset(To(s.sent, w, e, j))[m] == multiset(To(s.received, w, e, j))[m] + s.net[m])
    {
      ToMultiplicity(s.sent, w, e, j, m);
      ToMultiplicity(s.received, w, e, j, m);
    }
  }

  // The value a draining rank waits for is the number of messages sent to it in its epoch.
  lemma ValueIsExact(c: Config, s: System, w: nat, i: nat)
    requires LogsOk(c, s) && LocalsOk(c, s) && SharesOk(c, s) && HasLocal(c, s, w, i) && s.local[(w, i)].phase == Draining
    ensures Sealed(c, s, w, s.local[(w, i)].epoch, i)
    ensures s.local[(w, i)].value == |To(s.sent, w, s.local[(w, i)].epoch, i)|
    ensures s.local[(w, i)].count == |To(s.received, w, s.local[(w, i)].epoch, i)|
  {
    var e := s.local[(w, i)].epoch;
    assert LocalOk(c, s, w, i);
    if c.LastFence(w, e) {
      NothingInLast(c, s, w, e, i);
    } else {
      ReducedIsExact(c, s, w, i);
    }
  }

  // In the epoch of the last fence nothing is sent.
  lemma NothingInLast(c: Config, s: System, w: nat, e: nat, j: nat)
    requires LogsOk(c, s) && c.LastFence(w, e)
    ensures To(s.sent, w, e, j) == [] && To(s.received, w, e, j) == []
  {
    forall m | m in s.sent ensures !IsTo(m, w, e, j) {
      assert MsgOk(c, s, m);
    }
    forall m | m in s.received ensures m in s.sent {
      assert m in multiset(s.received);
      assert m in multiset(s.sent);
    }
    NoneTo(s.sent, w, e, j);
    NoneTo(s.received, w, e, j);
  }

  lemma ReducedIsExact(c: Config, s: System, w: nat, i: nat)
    requires LogsOk(c, s) && LocalsOk(c, s) && SharesOk(c, s) && HasLocal(c, s, w, i) && s.local[(w, i)].phase == Draining
    requires !c.LastFence(w, s.local[(w, i)].epoch)
    ensures Sealed(c, s, w, s.local[(w, i)].epoch, i)
    ensures s.local[(w, i)].value == |To(s.sent, w, s.local[(w, i)].epoch, i)|
  {
    var e := s.local[(w, i)].epoch;
    assert LocalOk(c, s, w, i);
    forall r: nat | r < c.ranks ensures Share(w, e, i, r) in s.shares && s.shares[Share(w, e, i, r)] == CountFrom(s.sent, w, e, r, i) {
      assert ShareOk(c, s, Share(w, e, i, r));
    }
    SharesAreCounts(s.shares, s.sent, w, e, i, c.ranks);
    forall m | m in s.sent ensures m.src < c.ranks {
      assert MsgOk(c, s, m);
    }
    SendersPartition(s.sent, w, e, i, c.ranks);
  }

  // A rank leaves an epoch only when all that was sent to it in the epoch has been consumed.
  lemma LeaveConsumes(c: Config, s: System, t: System, step: Step)
    requires LogsOk(c, s) && LocalsOk(c, s) && SharesOk(c, s) && step.LeaveEpoch? && EpochNext(c, s, t, step)
    ensures Consumed(t, step.w, s.local[(step.w, step.i)].epoch, step.i)
    ensures Sealed(c, t, step.w, s.local[(step.w, step.i)].epoch, step.i)
  {
    var w, i := step.w, step.i;
    var e := s.local[(w, i)].epoch;
    ValueIsExact(c, s, w, i);
    ReceivedWithinSent(c, s, w, e, i);
    SameSizeSame(multiset(To(s.received, w, e, i)), multiset(To(s.sent, w, e, i)));
  }

  lemma SameReceived(c: Config, s: System, t: System, step: Step, w: nat, e: nat, j: nat)
    requires c.Valid() && c.Safe() && Inv(c, s) && !OnWindows(step) && EpochNext(c, s, t, step) && Consumed(s, w, e, j)
    ensures To(t.received, w, e, j) == To(s.received, w, e, j)
  {
    if step.Receive? {
      ReceiveMatches(c, s, t, step);
      hide Inv, LocalOk, MsgOk;
      assert t.received == s.received + [step.m];
      ToAppend(s.received, step.m, w, e, j);
    }
  }

  // Equal logs leave nothing under way.
  lemma NothingUnderWay(c: Config, t: System, w: nat, e: nat, j: nat)
    requires multiset(t.sent) == multiset(t.received) + t.net
    requires multiset(To(t.received, w, e, j)) == multiset(To(t.sent, w, e, j))
    ensures Consumed(t, w, e, j)
  {
    ReceivedWithinSent(c, t, w, e, j);
  }

  // Nothing of a consumed epoch is received or put under way later.
  lemma ConsumedStays(c: Config, s: System, t: System, step: Step, w: nat, e: nat, j: nat)
    requires c.Valid() && c.Safe() && Inv(c, s) && multiset(t.sent) == multiset(t.received) + t.net
    requires Next(c, s, t, step) && Sealed(c, s, w, e, j) && Consumed(s, w, e, j)
    ensures Sealed(c, t, w, e, j) && Consumed(t, w, e, j)
    ensures To(t.sent, w, e, j) == To(s.sent, w, e, j) && To(t.received, w, e, j) == To(s.received, w, e, j)
  {
    if !OnWindows(step) {
      hide RanksOk, WindowsOk, LogsOk, LocalsOk, SharesOk, EpochsDone, EpochNext, Sealed;
      SealedStays(c, s, t, step, w, e, j);
      SameReceived(c, s, t, step, w, e, j);
      NothingUnderWay(c, t, w, e, j);
    }
  }

  lemma EpochKeepsDone(c: Config, s: System, t: System, step: Step)
    requires c.Valid() && c.Safe() && Inv(c, s) && !OnWindows(step) && EpochNext(c, s, t, step) && LogsOk(c, t)
    ensures EpochsDone(c, t)
  {
    EpochStepEffect(c, s, t, step);
    forall w: nat, i: nat, e: nat | HasLocal(c, t, w, i) && 1 <= e && t.local[(w, i)].Left(e)
      ensures Sealed(c, t, w, e, i) && Consumed(t, w, e, i)
    {
      assert HasLocal(c, s, w, i);
      if s.local[(w, i)].Left(e) {
        assert Consumed(s, w, e, i);
        LeftStays(c, s, t, step, w, i, e);
      } else {
        NewlyLeft(c, s, t, step, w, i, e);
        LeaveConsumes(c, s, t, step);
      }
    }
  }

  lemma LeftStays(c: Config, s: System, t: System, step: Step, w: nat, i: nat, e: nat)
    requires c.Valid() && c.Safe() && Inv(c, s) && !OnWindows(step) && EpochNext(c, s, t, step) && LogsOk(c, t)
    requires Sealed(c, s, w, e, i) && Consumed(s, w, e, i)
    ensures Sealed(c, t, w, e, i) && Consumed(t, w, e, i)
  {
    hide Inv, LogsOk, EpochNext, Sealed, Consumed;
    LogsBalance(c, t);
    ConsumedStays(c, s, t, step, w, e, i);
  }

  lemma LogsBalance(c: Config, s: System)
    requires LogsOk(c, s)
    ensures multiset(s.sent) == multiset(s.received) + s.net
  {
  }

  // An epoch is left by leaving it.
  lemma NewlyLeft(c: Config, s: System, t: System, step: Step, w: nat, i: nat, e: nat)
    requires LocalsOk(c, s) && !OnWindows(step) && EpochNext(c, s, t, step) && HasLocal(c, s, w, i) && HasLocal(c, t, w, i)
    requires 1 <= e && t.local[(w, i)].Left(e) && !s.local[(w, i)].Left(e)
    ensures step.LeaveEpoch? && w == step.w && i == step.i && e == s.local[(w, i)].epoch
  {
  }

  // Every step keeps the invariant.
  lemma NextKeepsInv(c: Config, s: System, t: System, step: Step)
    requires c.Valid() && c.Safe() && Inv(c, s) && Next(c, s, t, step)
    ensures Inv(c, t)
  {
    if OnWindows(step) {
      WindowKeepsInv(c, s, t, step);
    } else {
      EpochStepEffect(c, s, t, step);
      EpochKeepsWindows(c, s, t, step);
      EpochStepKeeps(c, s, t, step);
      hide RanksOk, WindowsOk, LogsOk, LocalsOk, SharesOk, EpochsDone, EpochNext, EpochEffect, ValidScript;
      EpochKeepsDone(c, s, t, step);
    }
  }

  lemma EpochStepKeeps(c: Config, s: System, t: System, step: Step)
    requires c.Valid() && c.Safe() && Inv(c, s) && !OnWindows(step) && EpochNext(c, s, t, step)
    ensures LogsOk(c, t) && LocalsOk(c, t) && SharesOk(c, t)
  {
    hide Inv, EpochNext, LogsOk, LocalsOk, SharesOk;
    match step
    case OpenEpoch(_, _) => OpenKeeps(c, s, t, step);
    case Send(_, _, _, _) => SendKeeps(c, s, t, step);
    case Receive(_, _, _) => ReceiveKeeps(c, s, t, step);
    case Reduce(_, _) => ReduceKeeps(c, s, t, step);
    case _ => QuietStepKeeps(c, s, t, step);
  }
}
