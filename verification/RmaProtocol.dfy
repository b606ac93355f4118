// The epoch protocol of the one-sided communication checker. Ranks create and free windows, open
// and close epochs on them, and count what they send; the counts are summed at each target, and the
// checker thread of a rank may end only when it has received that many interval messages.
module RmaProtocol {
  import opened RmaWindows
  import opened RmaLogs

  // Between epochs, inside one, in the reductions that close it, waiting for the checker thread to
  // end, or freed.
  datatype Phase = Idle | Open | Reducing(next: nat) | Draining | Freed

  // What one rank keeps for one window.
  datatype Local = Local(phase: Phase, epoch: nat, sends: seq<nat>, count: nat, value: nat) {
    predicate Active() {
      phase.Open? || phase.Reducing? || phase.Draining?
    }

    // The rank has left epoch "e".
    predicate Left(e: nat) {
      e < epoch || (e == epoch && !Active())
    }
  }

  // How many of the calls that create and free windows a rank has begun, whether it waits in a call
  // that frees one, and its allocator.
  datatype Rank = Rank(calls: nat, waiting: bool, ranges: Ranges)

  // The windows created and freed in a run, the highest epoch of any window, and for windows used
  // with fences the epoch that the last fence opened: freeing the window closes it without counting.
  // "quiet" says that the program sends nothing in those epochs.
  datatype Config = Config(ranks: nat, script: seq<Collective>, limit: nat, fences: map<nat, nat>, quiet: bool) {
    ghost predicate Valid() {
      ValidScript(script)
    }

    predicate LastFence(w: nat, e: nat) {
      w in fences && fences[w] == e
    }

    predicate Safe() {
      limit <= MAX_EPOCH && quiet
    }
  }

  // The whole system; the two logs record all messages sent and received so far.
  datatype System = System(ranks: seq<Rank>, local: map<(nat, nat), Local>, net: multiset<Msg>, shares: map<Share, nat>,
                           sent: seq<Msg>, received: seq<Msg>)

  ghost predicate HasLocal(c: Config, s: System, w: nat, i: nat) {
    i < c.ranks && (w, i) in s.local && |s.local[(w, i)].sends| == c.ranks
  }

  ghost predicate Init(c: Config, s: System) {
    && |s.ranks| == c.ranks && (forall i :: 0 <= i < c.ranks ==> s.ranks[i] == Rank(0, false, NoRanges()))
    && s.local == map[] && s.net == multiset{} && s.shares == map[] && s.sent == [] && s.received == []
  }

  function Zeros(n: nat): (z: seq<nat>)
    ensures |z| == n && forall k :: 0 <= k < n ==> z[k] == 0
  {
    seq(n, k => 0)
  }

  ghost predicate AllShared(c: Config, shares: map<Share, nat>, w: nat, e: nat, root: nat) {
    forall i: nat :: i < c.ranks ==> Share(w, e, root, i) in shares
  }

  datatype Step =
    | CreateWindow(w: nat, i: nat)
    | EnterFree(w: nat, i: nat)
    | ReturnFree(w: nat, i: nat)
    | OpenEpoch(w: nat, i: nat)
    | Send(w: nat, i: nat, target: nat, payload: int)
    | Receive(w: nat, i: nat, m: Msg)
    | BeginClose(w: nat, i: nat)
    | CloseLast(w: nat, i: nat)
    | Reduce(w: nat, i: nat)
    | EndReduce(w: nat, i: nat)
    | LeaveEpoch(w: nat, i: nat)

  predicate OnWindows(step: Step) {
    step.CreateWindow? || step.EnterFree? || step.ReturnFree?
  }

  // All ranks have begun call number "f".
  ghost predicate AllBegan(s: System, f: nat) {
    forall j :: 0 <= j < |s.ranks| ==> f < s.ranks[j].calls
  }

  // Windows are created and freed in the order of the script. A rank gives the range back at once,
  // but returns from the call that frees a window only when all ranks have begun it.
  ghost predicate WindowNext(c: Config, s: System, t: System, step: Step)
    requires OnWindows(step)
  {
    step.i < c.ranks == |s.ranks| &&
    var r := s.ranks[step.i];
    match step
    case CreateWindow(w, i) =>
      && !r.waiting && r.calls < |c.script| && c.script[r.calls].Create? && w == Created(c.script, r.calls)
      && t == s.(ranks := s.ranks[i := Rank(r.calls + 1, false, Take(r.ranges, w))],
                 local := s.local[(w, i) := Local(Idle, 0, Zeros(c.ranks), 0, 0)])
    case EnterFree(w, i) =>
      && !r.waiting && r.calls < |c.script| && c.script[r.calls] == Free(w)
      && HasLocal(c, s, w, i) && s.local[(w, i)].phase == Idle
      && w in r.ranges.ids && 0 <= r.ranges.ids[w] < |r.ranges.used|
      && t == s.(ranks := s.ranks[i := Rank(r.calls + 1, true, Give(r.ranges, w))],
                 local := s.local[(w, i) := s.local[(w, i)].(phase := Freed)])
    case ReturnFree(w, i) =>
      && r.waiting && 0 < r.calls <= |c.script| && c.script[r.calls - 1] == Free(w) && AllBegan(s, r.calls - 1)
      && t == s.(ranks := s.ranks[i := r.(waiting := false)])
  }

  ghost predicate EpochNext(c: Config, s: System, t: System, step: Step)
    requires !OnWindows(step)
  {
    step.i < c.ranks == |s.ranks| && HasLocal(c, s, step.w, step.i) && step.w in s.ranks[step.i].ranges.ids &&
    var r := s.ranks[step.i];
    var k := (step.w, step.i);
    var l := s.local[k];
    (step.Receive? || !r.waiting) &&
    match step
    // init_comm_check_thread: counts cleared, next epoch number, checker thread started.
    case OpenEpoch(w, i) =>
      && l.phase == Idle && l.epoch + 1 <= c.limit
      && t == s.(local := s.local[k := l.(phase := Open, epoch := l.epoch + 1, sends := Zeros(c.ranks))])
    // update_on_comm_send: the message carries the tag of the sender's epoch.
    case Send(w, i, target, payload) =>
      var m := Msg(i, target, Tag(r.ranges.ids[w], l.epoch), payload, w, l.epoch, r.calls);
      && l.phase == Open && target < c.ranks && (c.quiet ==> !c.LastFence(w, l.epoch))
      && t == s.(local := s.local[k := l.(sends := l.sends[target := l.sends[target] + 1])],
                 net := s.net + multiset{m}, sent := s.sent + [m])
    // check_communication: any message with this destination and tag.
    case Receive(w, i, m) =>
      && l.Active() && m in s.net && m.dst == i && m.tag == Tag(r.ranges.ids[w], l.epoch)
      && t == s.(local := s.local[k := l.(count := l.count + 1)],
                 net := s.net - multiset{m}, received := s.received + [m])
    // clear_comm_check_thread: one reduction per rank, in rank order.
    case BeginClose(w, i) =>
      l.phase == Open && !c.LastFence(w, l.epoch) && t == s.(local := s.local[k := l.(phase := Reducing(0))])
    // clear_comm_check_thread without reductions: no message is expected.
    case CloseLast(w, i) =>
      l.phase == Open && c.LastFence(w, l.epoch) && t == s.(local := s.local[k := l.(phase := Draining, value := 0)])
    case Reduce(w, i) =>
      && l.phase.Reducing? && l.phase.next < c.ranks
      && var root := l.phase.next;
         var shares := s.shares[Share(w, l.epoch, root, i) := l.sends[root]];
         // The root returns from its reduction only when every rank has taken part.
         if root == i then
           && AllShared(c, shares, w, l.epoch, root)
           && t == s.(local := s.local[k := l.(phase := Reducing(root + 1), value := ShareSum(shares, w, l.epoch, root, c.ranks))],
                      shares := shares)
         else
           t == s.(local := s.local[k := l.(phase := Reducing(root + 1))], shares := shares)
    case EndReduce(w, i) =>
      l.phase == Reducing(c.ranks) && t == s.(local := s.local[k := l.(phase := Draining)])
    // The checker thread sees the end flag with all messages received, and is joined.
    case LeaveEpoch(w, i) =>
      && l.phase == Draining && l.count == l.value
      && t == s.(local := s.local[k := l.(phase := Idle, count := 0)])
  }

  ghost predicate Next(c: Config, s: System, t: System, step: Step) {
    if OnWindows(step) then WindowNext(c, s, t, step) else EpochNext(c, s, t, step)
  }

  // ----- the invariant -----

  // The rank has come back from call number "f".
  predicate CameBack(r: Rank, f: nat) {
    f + 1 < r.calls || (f + 1 == r.calls && !r.waiting)
  }

  // A rank's ranges are those of the calls it has begun, and it has come back from freeing a window
  // only if all ranks have begun to free it.
  ghost predicate RankOk(c: Config, s: System, i: nat)
    requires i < |s.ranks|
  {
    var r := s.ranks[i];
    && r.calls <= |c.script| && r.ranges == After(c.script, r.calls)
    && (r.waiting ==> r.calls > 0 && c.script[r.calls - 1].Free?)
    && (forall f: nat :: f < |c.script| && c.script[f].Free? && CameBack(r, f) ==> AllBegan(s, f))
  }

  ghost predicate RanksOk(c: Config, s: System) {
    |s.ranks| == c.ranks && forall i {:trigger RankOk(c, s, i)} :: 0 <= i < c.ranks ==> RankOk(c, s, i)
  }

  // A rank keeps something for exactly the windows it has created, and knows which it has freed.
  ghost predicate WindowOk(c: Config, s: System, w: nat, i: nat)
    requires i < |s.ranks| && s.ranks[i].calls <= |c.script|
  {
    && ((w, i) in s.local <==> w < Created(c.script, s.ranks[i].calls))
    && ((w, i) in s.local ==> HasLocal(c, s, w, i) && (s.local[(w, i)].phase == Freed <==> w !in After(c.script, s.ranks[i].calls).ids))
  }

  ghost predicate WindowsOk(c: Config, s: System)
    requires RanksOk(c, s)
  {
    && (forall k :: k in s.local ==> k.1 < c.ranks)
    && (forall w: nat, i: nat {:trigger WindowOk(c, s, w, i)} :: i < c.ranks ==> RankOk(c, s, i) && WindowOk(c, s, w, i))
  }

  // A message was sent in an epoch of its sender on a window that was alive there, with the tag of
  // both, after all ranks had begun to free what its sender had freed before.
  ghost predicate MsgOk(c: Config, s: System, m: Msg) {
    && m.src < c.ranks && m.src < |s.ranks| && m.dst < c.ranks && (m.win, m.src) in s.local
    && 1 <= m.epoch <= s.local[(m.win, m.src)].epoch && m.epoch <= c.limit && !c.LastFence(m.win, m.epoch)
    && m.at <= |c.script| && m.at <= s.ranks[m.src].calls
    && m.win in After(c.script, m.at).ids && m.tag == Tag(After(c.script, m.at).ids[m.win], m.epoch)
    && (forall f: nat :: f < m.at && c.script[f].Free? ==> AllBegan(s, f))
  }

  ghost predicate LogsOk(c: Config, s: System) {
    && multiset(s.sent) == multiset(s.received) + s.net
    && (forall m {:trigger MsgOk(c, s, m)} :: m in s.sent ==> MsgOk(c, s, m))
    && (forall m :: m in s.received ==> (m.win, m.dst) in s.local && m.epoch <= s.local[(m.win, m.dst)].epoch)
  }

  ghost predicate LocalOk(c: Config, s: System, w: nat, i: nat)
    requires HasLocal(c, s, w, i)
  {
    var l := s.local[(w, i)];
    && l.epoch <= c.limit
    && (l.phase.Reducing? ==> l.phase.next <= c.ranks && !c.LastFence(w, l.epoch))
    && (!l.Active() ==> l.count == 0)
    && (l.Active() ==>
          && 1 <= l.epoch
          && l.count == |To(s.received, w, l.epoch, i)|
          && (forall j :: 0 <= j < c.ranks ==> l.sends[j] == CountFrom(s.sent, w, l.epoch, i, j)))
    && (l.phase == Draining && c.LastFence(w, l.epoch) ==> l.value == 0)
    && ((l.phase == Draining && !c.LastFence(w, l.epoch)) || (l.phase.Reducing? && l.phase.next > i) ==>
          AllShared(c, s.shares, w, l.epoch, i) && l.value == ShareSum(s.shares, w, l.epoch, i, c.ranks))
  }

  ghost predicate LocalsOk(c: Config, s: System) {
    forall w: nat, i: nat {:trigger HasLocal(c, s, w, i)} :: HasLocal(c, s, w, i) ==> LocalOk(c, s, w, i)
  }

  // A share is final: its rank sends no more in that epoch.
  ghost predicate ShareOk(c: Config, s: System, k: Share) {
    && k in s.shares && k.from < c.ranks && (k.win, k.from) in s.local
    && s.shares[k] == CountFrom(s.sent, k.win, k.epoch, k.from, k.root)
    && var l := s.local[(k.win, k.from)];
       k.epoch < l.epoch || (k.epoch == l.epoch && l.phase != Open)
  }

  ghost predicate SharesOk(c: Config, s: System) {
    forall k {:trigger ShareOk(c, s, k)} :: k in s.shares ==> ShareOk(c, s, k)
  }

  // Once every rank has given its share for the root "j", nothing more is sent to "j" in that epoch;
  // in the epoch of the last fence nothing is sent at all.
  ghost predicate Sealed(c: Config, s: System, w: nat, e: nat, j: nat) {
    c.LastFence(w, e) || AllShared(c, s.shares, w, e, j)
  }

  // Everything sent to "j" in epoch "e" has been received, and nothing of it is under way.
  ghost predicate Consumed(s: System, w: nat, e: nat, j: nat) {
    && multiset(To(s.received, w, e, j)) == multiset(To(s.sent, w, e, j))
    && forall m :: m in s.net ==> !IsTo(m, w, e, j)
  }

  // Epochs that a rank has left have been consumed by it.
  ghost predicate EpochsDone(c: Config, s: System) {
    forall w: nat, i: nat, e: nat {:trigger Consumed(s, w, e, i)} ::
      HasLocal(c, s, w, i) && 1 <= e && s.local[(w, i)].Left(e) ==> Sealed(c, s, w, e, i) && Consumed(s, w, e, i)
  }

  ghost predicate Inv(c: Config, s: System) {
    && RanksOk(c, s) && WindowsOk(c, s) && LogsOk(c, s) && LocalsOk(c, s) && SharesOk(c, s) && EpochsDone(c, s)
  }

  lemma InitInv(c: Config, s: System)
    requires Init(c, s)
    ensures Inv(c, s)
  {
  }
}
