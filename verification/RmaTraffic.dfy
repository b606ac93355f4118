// What the checker threads receive, against what the program sends: counted over the steps of a run
// and not over the logs that the steps keep.
module RmaTraffic {
  import opened RmaLogs
  import opened RmaProtocol
  import opened RmaInvariant
  import opened RmaRuns

  // Rank "i" is in epoch "e" of window "w".
  ghost predicate InEpoch(s: System, w: nat, i: nat, e: nat) {
    (w, i) in s.local && s.local[(w, i)].epoch == e
  }

  // What the first "n" steps send to rank "j", its senders being in epoch "e" of the window.
  ghost function SentTo(states: seq<System>, steps: seq<Step>, n: nat, w: nat, e: nat, j: nat): multiset<int>
    requires n <= |steps| <= |states|
  {
    if n == 0 then multiset{} else
      var rest, step := SentTo(states, steps, n - 1, w, e, j), steps[n - 1];
      if step.Send? && step.w == w && step.target == j && InEpoch(states[n - 1], w, step.i, e)
      then rest + multiset{step.payload} else rest
  }

  // What the thread of rank "j" takes in epoch "e" of the window.
  ghost function TakenBy(states: seq<System>, steps: seq<Step>, n: nat, w: nat, e: nat, j: nat): multiset<int>
    requires n <= |steps| <= |states|
  {
    if n == 0 then multiset{} else
      var rest, step := TakenBy(states, steps, n - 1, w, e, j), steps[n - 1];
      if step.Receive? && step.w == w && step.i == j && InEpoch(states[n - 1], w, j, e)
      then rest + multiset{step.m.payload} else rest
  }

  ghost function Payloads(log: seq<Msg>): multiset<int> {
    if log == [] then multiset{} else Payloads(log[..|log| - 1]) + multiset{log[|log| - 1].payload}
  }

  lemma {:induction false} PayloadsConcat(a: seq<Msg>, b: seq<Msg>)
    ensures Payloads(a + b) == Payloads(a) + Payloads(b)
    decreases |b|
  {
    if b == [] {
      assert a + b == a;
    } else {
      var n := |b| - 1;
      assert (a + b)[..|a + b| - 1] == a + b[..n];
      PayloadsConcat(a, b[..n]);
    }
  }

  lemma PayloadsOfOne(m: Msg)
    ensures Payloads([m]) == multiset{m.payload}
  {
    assert [m][..0] == [];
  }

  lemma NoPayloads()
    ensures Payloads([]) == multiset{}
  {
  }

  lemma PayloadsInside(front: seq<Msg>, x: Msg, back: seq<Msg>)
    ensures Payloads(front + [x] + back) == Payloads(front + back) + multiset{x.payload}
  {
    PayloadsOfOne(x);
    hide Payloads;
    PayloadsConcat(front, back);
    PayloadsConcat(front + [x], back);
    PayloadsConcat(front, [x]);
  }

  // The order of the messages does not matter.
  lemma {:induction false} SamePayloads(a: seq<Msg>, b: seq<Msg>)
    requires multiset(a) == multiset(b)
    ensures Payloads(a) == Payloads(b)
    decreases |a|
  {
    if a == [] {
      assert |multiset(b)| == |b|;
    } else {
      hide Payloads;
      var n := |a| - 1;
      var x, init := a[n], a[..n];
      assert a == init + [x] + [];
      assert init + [] == init;
      var front, back := Around(b, x, a);
      SameRest(init, x, front, back);
      SamePayloads(init, front + back);
      PayloadsInside(init, x, []);
      PayloadsInside(front, x, back);
    }
  }

  lemma Around(b: seq<Msg>, x: Msg, a: seq<Msg>) returns (front: seq<Msg>, back: seq<Msg>)
    requires multiset(a) == multiset(b) && x in a
    ensures b == front + [x] + back
  {
    assert x in multiset(b);
    var k :| 0 <= k < |b| && b[k] == x;
    front, back := b[..k], b[k + 1..];
  }

  lemma SameRest(init: seq<Msg>, x: Msg, front: seq<Msg>, back: seq<Msg>)
    requires multiset(init + [x] + []) == multiset(front + [x] + back)
    ensures multiset(init) == multiset(front + back)
  {
    assert init + [x] + [] == init + [x];
    assert multiset(init) == multiset(init + [x]) - multiset{x};
    assert multiset(front + back) == multiset(front + [x] + back) - multiset{x};
  }

  // The log of what was sent holds just what the steps send.
  lemma {:induction false} SentIsLogged(c: Config, states: seq<System>, steps: seq<Step>, n: nat, w: nat, e: nat, j: nat)
    requires IsRun(c, states, steps) && n <= |steps|
    ensures Payloads(To(states[n].sent, w, e, j)) == SentTo(states, steps, n, w, e, j)
  {
    hide Next;
    assert |states| == |steps| + 1;
    if n > 0 {
      hide Payloads, To, IsRun;
      SentIsLogged(c, states, steps, n - 1, w, e, j);
      RunStep(c, states, steps, n - 1);
      SendIsLogged(c, states[n - 1], states[n], steps[n - 1], w, e, j);
    }
  }

  lemma SentGrows(c: Config, s: System, t: System, step: Step)
    requires Next(c, s, t, step)
    ensures if step.Send? then
              && (step.w, step.i) in s.local && |t.sent| == |s.sent| + 1 && t.sent == s.sent + [t.sent[|s.sent|]]
              && var m := t.sent[|s.sent|];
                 m.win == step.w && m.epoch == s.local[(step.w, step.i)].epoch && m.dst == step.target && m.payload == step.payload
            else t.sent == s.sent
  {
  }

  lemma SendIsLogged(c: Config, s: System, t: System, step: Step, w: nat, e: nat, j: nat)
    requires Next(c, s, t, step)
    ensures Payloads(To(t.sent, w, e, j)) ==
      Payloads(To(s.sent, w, e, j)) +
      if step.Send? && step.w == w && step.target == j && InEpoch(s, w, step.i, e) then multiset{step.payload} else multiset{}
  {
    SentGrows(c, s, t, step);
    hide Next, Payloads, To;
    if step.Send? {
      var m := t.sent[|s.sent|];
      ToAppend(s.sent, m, w, e, j);
      PayloadsConcat(To(s.sent, w, e, j), if IsTo(m, w, e, j) then [m] else []);
      PayloadsOfOne(m);
      NoPayloads();
    }
  }

  // And the log of what was received what the threads take.
  lemma {:induction false} TakenIsLogged(c: Config, states: seq<System>, steps: seq<Step>, n: nat, w: nat, e: nat, j: nat)
    requires c.Valid() && c.Safe() && IsRun(c, states, steps) && n <= |steps|
    ensures Payloads(To(states[n].received, w, e, j)) == TakenBy(states, steps, n, w, e, j)
  {
    hide Next, Inv;
    assert |states| == |steps| + 1;
    if n > 0 {
      hide Payloads, To, IsRun;
      TakenIsLogged(c, states, steps, n - 1, w, e, j);
      RunStep(c, states, steps, n - 1);
      RunInv(c, states, steps, n - 1);
      ReceiveIsLogged(c, states[n - 1], states[n], steps[n - 1], w, e, j);
    }
  }

  lemma ReceivedGrows(c: Config, s: System, t: System, step: Step)
    requires Next(c, s, t, step)
    ensures t.received == s.received + if step.Receive? then [step.m] else []
    ensures step.Receive? ==> (step.w, step.i) in s.local
  {
  }

  lemma ReceiveIsLogged(c: Config, s: System, t: System, step: Step, w: nat, e: nat, j: nat)
    requires c.Valid() && c.Safe() && Inv(c, s) && Next(c, s, t, step)
    ensures Payloads(To(t.received, w, e, j)) ==
      Payloads(To(s.received, w, e, j)) +
      if step.Receive? && step.w == w && step.i == j && InEpoch(s, w, j, e) then multiset{step.m.payload} else multiset{}
  {
    hide Inv, EpochNext, WindowNext, Payloads, To;
    ReceivedGrows(c, s, t, step);
    if step.Receive? {
      ReceiveMatches(c, s, t, step);
      var m := step.m;
      ToAppend(s.received, m, w, e, j);
      PayloadsConcat(To(s.received, w, e, j), if IsTo(m, w, e, j) then [m] else []);
      PayloadsOfOne(m);
      NoPayloads();
    } else {
      assert t.received == s.received;
    }
  }

  // In every run, from the moment a rank leaves an epoch on, its checker thread has taken in the
  // epoch exactly what ranks in the epoch have sent to it, then and later.
  lemma TakenIsSent(c: Config, states: seq<System>, steps: seq<Step>, k: nat, l: nat)
    requires c.Valid() && c.Safe() && IsRun(c, states, steps) && k < l < |states| && steps[k].LeaveEpoch?
    ensures |states| == |steps| + 1 && (steps[k].w, steps[k].i) in states[k].local
    ensures var w, e, i := steps[k].w, states[k].local[(steps[k].w, steps[k].i)].epoch, steps[k].i;
            TakenBy(states, steps, l, w, e, i) == SentTo(states, steps, l, w, e, i)
  {
    EpochsAreExact(c, states, steps, k, l);
    var w, e, i := steps[k].w, states[k].local[(steps[k].w, steps[k].i)].epoch, steps[k].i;
    SentIsLogged(c, states, steps, l, w, e, i);
    TakenIsLogged(c, states, steps, l, w, e, i);
    SamePayloads(To(states[l].received, w, e, i), To(states[l].sent, w, e, i));
  }
}
