// The backward traversal of a loop-free control-flow graph: a block whose successors have not all
// been visited is put back at the end of the queue.
module CfgTraversal {
  import opened Sequences

  datatype NodeState = Unvisited | Pushed | Visited

  // The graph of one function. "rank" shows that it has no cycle.
  datatype Cfg = Cfg(blocks: seq<nat>, succ: map<nat, seq<nat>>, pred: map<nat, seq<nat>>, ghost rank: map<nat, nat>)

  ghost predicate Valid(g: Cfg) {
    && (forall b :: b in g.blocks ==> b in g.succ && b in g.pred && b in g.rank)
    && (forall b, s {:trigger s in g.succ[b]} :: b in g.blocks && s in g.succ[b] ==>
          s in g.blocks && b in g.pred[s] && g.rank[s] < g.rank[b])
    && (forall b, s {:trigger b in g.pred[s]} :: s in g.blocks && b in g.pred[s] ==> b in g.blocks && s in g.succ[b])
  }

  // Every successor has been visited.
  predicate Ready(g: Cfg, done: set<nat>, b: nat) {
    b in g.succ && forall s :: s in g.succ[b] ==> s in done
  }

  // Each block comes after all its successors.
  ghost predicate AfterSuccessors(g: Cfg, order: seq<nat>) {
    forall i :: 0 <= i < |order| ==> order[i] in g.succ && forall s :: s in g.succ[order[i]] ==> s in order[..i]
  }

  // "order" lists the visited blocks, oldest first.
  ghost predicate Inv(g: Cfg, order: seq<nat>, queue: seq<nat>)
    requires Valid(g)
  {
    && NoDuplicates(order) && NoDuplicates(queue) && Members(order) !! Members(queue)
    && AfterSuccessors(g, order)
    && (forall b :: b in order ==> b in g.blocks) && (forall b :: b in queue ==> b in g.blocks)
    && (forall b :: b in g.blocks && g.succ[b] == [] ==> b in order || b in queue)
    && (forall b, s :: b in g.blocks && s in g.succ[b] && s in order ==> b in order || b in queue)
  }

  // Under every block that has not been visited there is one in the queue that is ready.
  lemma {:induction false} SomeReady(g: Cfg, order: seq<nat>, queue: seq<nat>, b: nat) returns (r: nat)
    requires Valid(g) && Inv(g, order, queue) && b in g.blocks && b !in order
    ensures r in queue && Ready(g, Members(order), r)
    decreases g.rank[b]
  {
    if s :| s in g.succ[b] && s !in order {
      r := SomeReady(g, order, queue, s);
    } else {
      r := b;
      if g.succ[b] != [] {
        var s := g.succ[b][0];
        assert s in g.succ[b] && s in order;
      }
    }
  }

  // The position of the first block that is ready.
  ghost function FirstReady(g: Cfg, done: set<nat>, queue: seq<nat>): nat {
    if queue == [] || Ready(g, done, queue[0]) then 0 else 1 + FirstReady(g, done, queue[1..])
  }

  lemma {:induction false} FirstReadyStays(g: Cfg, done: set<nat>, queue: seq<nat>, x: nat, r: nat)
    requires r in queue && Ready(g, done, r)
    ensures FirstReady(g, done, queue + [x]) == FirstReady(g, done, queue)
  {
    if !Ready(g, done, queue[0]) {
      assert (queue + [x])[1..] == queue[1..] + [x];
      FirstReadyStays(g, done, queue[1..], x, r);
    }
  }

  // Putting a block back brings the first ready one closer.
  lemma PostponeProgress(g: Cfg, order: seq<nat>, queue: seq<nat>)
    requires Valid(g) && Inv(g, order, queue) && queue != [] && !Ready(g, Members(order), queue[0])
    ensures Inv(g, order, queue[1..] + [queue[0]])
    ensures FirstReady(g, Members(order), queue[1..] + [queue[0]]) < FirstReady(g, Members(order), queue)
  {
    var b := queue[0];
    var r := SomeReady(g, order, queue, b);
    FirstReadyStays(g, Members(order), queue[1..], b, r);
    assert forall x :: x in queue <==> x in queue[1..] + [b];
    assert Members(queue[1..] + [b]) == Members(queue);
  }

  // A visited block moves from the queue to the order, and its predecessors are queued.
  lemma VisitKeepsInv(g: Cfg, order: seq<nat>, queue: seq<nat>, queue': seq<nat>)
    requires Valid(g) && Inv(g, order, queue) && queue != [] && Ready(g, Members(order), queue[0])
    requires NoDuplicates(queue')
    requires forall x :: x in queue' <==> x in queue[1..] || (x in g.pred[queue[0]] && x !in order && x !in queue)
    ensures Inv(g, order + [queue[0]], queue')
    ensures queue[0] !in order
  {
    var b := queue[0];
    assert b in queue;
    assert b in Members(queue);
    var order' := order + [b];
    assert forall x :: x in order' <==> x in order || x == b;
    assert forall x :: x in queue <==> x == b || x in queue[1..];
    forall i | 0 <= i < |order'| ensures order'[i] in g.succ && forall s :: s in g.succ[order'[i]] ==> s in order'[..i] {
      if i < |order| {
        assert order'[i] == order[i] && order'[..i] == order[..i];
      } else {
        assert order'[..i] == order;
        assert forall s :: s in g.succ[b] ==> s in Members(order);
      }
    }
    forall x | x in queue[1..] ensures x != b && x in Members(queue) {
      var i :| 0 <= i < |queue[1..]| && queue[1..][i] == x;
      assert queue[i + 1] == x;
    }
    assert Members(order') !! Members(queue') by {
      assert forall x :: x in Members(order') ==> x in Members(order) || x == b;
      assert forall x :: x in Members(queue') ==> x !in Members(order) && x != b;
    }
    forall x, s | x in g.blocks && s in g.succ[x] && s in order' ensures x in order' || x in queue' {
      if s == b {
        assert x in g.pred[b];
      }
    }
  }

  // An empty queue means that all blocks have been visited.
  lemma AllVisited(g: Cfg, order: seq<nat>)
    requires Valid(g) && Inv(g, order, [])
    ensures forall b :: b in g.blocks <==> b in order
    ensures NoDuplicates(order) && AfterSuccessors(g, order)
  {
    forall b | b in g.blocks ensures b in order {
      if b !in order {
        var r := SomeReady(g, order, [], b);
      }
    }
  }

  function StateOf(visited: map<nat, NodeState>, b: nat): NodeState {
    if b in visited then visited[b] else Unvisited
  }

  // The states agree with the queue and the order.
  ghost predicate StatesOk(visited: map<nat, NodeState>, order: seq<nat>, queue: seq<nat>) {
    forall b :: (StateOf(visited, b) == Visited <==> b in order) && (StateOf(visited, b) == Pushed <==> b in queue)
  }

  // The returning blocks start the traversal.
  method Start(g: Cfg) returns (queue: seq<nat>, visited: map<nat, NodeState>)
    requires Valid(g) && NoDuplicates(g.blocks)
    ensures Inv(g, [], queue) && StatesOk(visited, [], queue)
  {
    queue, visited := [], map[];
    for i := 0 to |g.blocks|
      invariant forall b :: b in queue ==> b in g.blocks[..i]
      invariant NoDuplicates(queue) && StatesOk(visited, [], queue)
      invariant forall b :: b in g.blocks[..i] && g.succ[b] == [] ==> b in queue
    {
      var b := g.blocks[i];
      assert b !in g.blocks[..i];
      if |g.succ[b]| == 0 {
        visited, queue := visited[b := Pushed], queue + [b];
      }
    }
  }

  // Whether all successors of a block have been visited.
  method AllDone(g: Cfg, visited: map<nat, NodeState>, b: nat, ghost order: seq<nat>, ghost queue: seq<nat>) returns (all: bool)
    requires b in g.succ && StatesOk(visited, order, queue)
    ensures all <==> Ready(g, Members(order), b)
  {
    all := true;
    for i := 0 to |g.succ[b]|
      invariant all
      invariant forall s :: s in g.succ[b][..i] ==> StateOf(visited, s) == Visited
    {
      if StateOf(visited, g.succ[b][i]) != Visited {
        assert g.succ[b][i] in g.succ[b] && g.succ[b][i] !in Members(order);
        return false;
      }
    }
  }

  // The predecessors not seen yet join the queue.
  method EnqueuePreds(g: Cfg, b: nat, queue0: seq<nat>, visited0: map<nat, NodeState>, ghost order: seq<nat>)
    returns (queue: seq<nat>, visited: map<nat, NodeState>)
    requires b in g.pred && NoDuplicates(queue0) && StatesOk(visited0, order, queue0)
    ensures NoDuplicates(queue) && StatesOk(visited, order, queue)
    ensures forall x :: x in queue <==> x in queue0 || (x in g.pred[b] && x !in order)
  {
    queue, visited := queue0, visited0;
    for i := 0 to |g.pred[b]|
      invariant NoDuplicates(queue) && StatesOk(visited, order, queue)
      invariant forall x :: x in queue <==> x in queue0 || (x in g.pred[b][..i] && x !in order)
    {
      var x := g.pred[b][i];
      if StateOf(visited, x) == Unvisited {
        visited, queue := visited[x := Pushed], queue + [x];
      }
    }
  }

  // Marking the front block as visited.
  lemma FrontLeaves(g: Cfg, order: seq<nat>, queue: seq<nat>, visited: map<nat, NodeState>)
    requires Valid(g) && queue != [] && Inv(g, order, queue) && StatesOk(visited, order, queue)
    ensures StatesOk(visited[queue[0] := Visited], order + [queue[0]], queue[1..])
    ensures NoDuplicates(queue[1..]) && queue[0] in g.pred
  {
    var b := queue[0];
    assert b in queue;
    forall x | x in queue[1..] ensures x in queue && x != b {
      var i :| 0 <= i < |queue[1..]| && queue[1..][i] == x;
      assert queue[i + 1] == x;
    }
    assert forall x :: x in queue ==> x == b || x in queue[1..];
  }

  lemma FrontBlock(g: Cfg, order: seq<nat>, queue: seq<nat>)
    requires Valid(g) && queue != [] && Inv(g, order, queue)
    ensures queue[0] in g.blocks && queue[0] in g.succ && queue[0] !in order
  {
    assert queue[0] in Members(queue) && queue[0] in queue;
  }

  lemma RotationKeepsStates(visited: map<nat, NodeState>, order: seq<nat>, queue: seq<nat>)
    requires queue != [] && StatesOk(visited, order, queue)
    ensures StatesOk(visited, order, queue[1..] + [queue[0]])
  {
    assert forall x :: x in queue <==> x in queue[1..] + [queue[0]];
  }

  // A traversal may start from the only block that depends on nothing.
  lemma StartAt(g: Cfg, b: nat)
    requires Valid(g) && b in g.blocks && forall x :: x in g.blocks && g.succ[x] == [] ==> x == b
    ensures Inv(g, [], [b]) && StatesOk(map[b := Pushed], [], [b])
  {
    assert Members([]) == {};
  }
}
