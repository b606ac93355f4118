// The solver's two mutable containers: the constraint graph and the duplicate-free FIFO.
module ConstraintGraphs {
  import opened PointsTo

  class ConstraintGraph {
    var graph: map<nat, Edges>

    constructor ()
      ensures graph == map[]
    {
      graph := map[];
    }

    ghost function EdgesOf(n: nat): Edges
      reads this
    {
      if n in graph then graph[n] else NoEdges
    }

    method InsertCopyEdge(src: nat, dst: nat) returns (isNew: bool)
      modifies this
      ensures isNew <==> dst !in old(EdgesOf(src).copy)
      ensures graph == old(graph)[src := old(EdgesOf(src)).(copy := old(EdgesOf(src)).copy + {dst})]
    {
      if src !in graph {
        assert {} + {dst} == {dst};
        graph := graph[src := Edges({dst}, {}, {})];
        isNew := true;
      } else {
        isNew := dst !in graph[src].copy;
        graph := graph[src := graph[src].(copy := graph[src].copy + {dst})];
      }
    }

    method InsertLoadEdge(src: nat, dst: nat) returns (isNew: bool)
      modifies this
      ensures isNew <==> dst !in old(EdgesOf(src).load)
      ensures graph == old(graph)[src := old(EdgesOf(src)).(load := old(EdgesOf(src)).load + {dst})]
    {
      if src !in graph {
        assert {} + {dst} == {dst};
        graph := graph[src := Edges({}, {dst}, {})];
        isNew := true;
      } else {
        isNew := dst !in graph[src].load;
        graph := graph[src := graph[src].(load := graph[src].load + {dst})];
      }
    }

    method InsertStoreEdge(src: nat, dst: nat) returns (isNew: bool)
      modifies this
      ensures isNew <==> dst !in old(EdgesOf(src).store)
      ensures graph == old(graph)[src := old(EdgesOf(src)).(store := old(EdgesOf(src)).store + {dst})]
    {
      if src !in graph {
        assert {} + {dst} == {dst};
        graph := graph[src := Edges({}, {}, {dst})];
        isNew := true;
      } else {
        isNew := dst !in graph[src].store;
        graph := graph[src := graph[src].(store := graph[src].store + {dst})];
      }
    }

    // mergeNodes followed by deleteNode: the edges of "src" move to "dst".
    method MergeAndDelete(dst: nat, src: nat)
      requires dst != src
      modifies this
      ensures src !in graph
      ensures forall n :: n != dst && n != src ==> EdgesOf(n) == old(EdgesOf(n))
      ensures EdgesOf(dst) == Edges(old(EdgesOf(dst)).copy + old(EdgesOf(src)).copy,
                                    old(EdgesOf(dst)).load + old(EdgesOf(src)).load,
                                    old(EdgesOf(dst)).store + old(EdgesOf(src)).store)
      ensures graph.Keys == old(graph.Keys) - {src} + (if src in old(graph) then {dst} else {})
    {
      if src in graph {
        var from := graph[src];
        if dst !in graph {
          graph := graph[dst := from];
        } else {
          var to := graph[dst];
          graph := graph[dst := Edges(to.copy + from.copy, to.load + from.load, to.store + from.store)];
        }
      }
      graph := graph - {src};
    }

    method GetOrInsertNode(n: nat)
      modifies this
      ensures graph == if n in old(graph) then old(graph) else old(graph)[n := NoEdges]
    {
      if n !in graph {
        graph := graph[n := NoEdges];
      }
    }

    // Replaces, in the edges of a node, every key of an update map by its value.
    method ReplaceCopyEdges(n: nat, updates: map<nat, nat>)
      requires n in graph && updates.Keys <= graph[n].copy && updates.Keys !! updates.Values
      modifies this
      ensures graph == old(graph)[n := old(graph)[n].(copy := old(graph)[n].copy - updates.Keys + updates.Values)]
    {
      var copy := Replace(graph[n].copy, updates);
      graph := graph[n := graph[n].(copy := copy)];
    }

    method ReplaceLoadEdges(n: nat, updates: map<nat, nat>)
      requires n in graph && updates.Keys <= graph[n].load && updates.Keys !! updates.Values
      modifies this
      ensures graph == old(graph)[n := old(graph)[n].(load := old(graph)[n].load - updates.Keys + updates.Values)]
    {
      var load := Replace(graph[n].load, updates);
      graph := graph[n := graph[n].(load := load)];
    }

    method ReplaceStoreEdges(n: nat, updates: map<nat, nat>)
      requires n in graph && updates.Keys <= graph[n].store && updates.Keys !! updates.Values
      modifies this
      ensures graph == old(graph)[n := old(graph)[n].(store := old(graph)[n].store - updates.Keys + updates.Values)]
    {
      var store := Replace(graph[n].store, updates);
      graph := graph[n := graph[n].(store := store)];
    }
  }

  // One pass over an update map: each stale id is removed and its new id inserted.
  method Replace(s: set<nat>, updates: map<nat, nat>) returns (r: set<nat>)
    requires updates.Keys <= s && updates.Keys !! updates.Values
    ensures r == s - updates.Keys + updates.Values
  {
    r := s;
    var todo := updates.Keys;
    while todo != {}
      invariant todo <= updates.Keys
      invariant forall x :: x in r <==> (x in s && x !in updates.Keys - todo) || exists k :: k in updates && k !in todo && updates[k] == x
    {
      var k :| k in todo;
      r := r - {k} + {updates[k]};
      todo := todo - {k};
    }
  }

  // A FIFO that ignores an element it already holds.
  class AndersWorkList {
    var list: seq<nat>
    var members: set<nat>

    ghost predicate Valid()
      reads this
    {
      && (forall x :: x in members <==> x in list)
      && (forall i, j :: 0 <= i < j < |list| ==> list[i] != list[j])
    }

    constructor ()
      ensures Valid() && list == []
    {
      list, members := [], {};
    }

    method Enqueue(x: nat)
      requires Valid()
      modifies this
      ensures Valid()
      ensures members == old(members) + {x}
      ensures list == if x in old(list) then old(list) else old(list) + [x]
    {
      if x !in members {
        list := list + [x];
        members := members + {x};
      }
    }

    method Dequeue() returns (x: nat)
      requires Valid() && list != []
      modifies this
      ensures Valid()
      ensures old(list) == [x] + list
      ensures old(members) == members + {x} && x !in members
    {
      x := list[0];
      list := list[1..];
      members := members - {x};
    }
  }
}
