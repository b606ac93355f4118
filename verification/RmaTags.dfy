// The allocator of tag ranges on its array: a window takes the first free range and gives it back
// when it is freed.
module RmaTags {
  import opened RmaWindows

  class TagRanges {
    var used: array<int>
    ghost var ids: map<nat, int>       // the windows that are alive and what they got

    ghost function State(): Ranges
      reads this, used
    {
      Ranges(used[..], ids)
    }

    ghost predicate Valid()
      reads this, used
    {
      used.Length == MAX_WIN && Held(State())
    }

    constructor ()
      ensures Valid() && State() == NoRanges() && fresh(used)
    {
      used := new int[MAX_WIN](i => 0);
      ids := map[];
      new;
      assert used[..] == NoRanges().used;
      NoRangesHeld();
    }

    // get_tag_range_id: -1 when every range is taken.
    method GetTagRangeId(ghost w: nat) returns (id: int)
      requires Valid() && w !in ids
      modifies this`ids, used
      ensures Valid() && State() == Take(old(State()), w)
      ensures id == FirstFree(old(used[..]), 0) == ids[w]
    {
      TakeHeld(State(), w);
      ghost var before := used[..];
      for i := 0 to MAX_WIN
        invariant used[..] == before && ids == old(ids)
        invariant forall j :: 0 <= j < i ==> used[j] != 0
      {
        if used[i] == 0 {
          FirstIs(before, i);
          used[i] := 1;
          ids := ids[w := i];
          assert used[..] == before[i := 1];
          return i;
        }
      }
      ids := ids[w := -1];
      return -1;
    }

    // free_tag_range, from the first tag of the window. For a window that got -1 the place to write
    // to is outside the array, and nothing more is said.
    method FreeTagRange(tag: int, ghost w: nat) returns (inside: bool)
      requires Valid() && w in ids && tag == Tag(ids[w], 0)
      modifies this`ids, used
      ensures inside <==> old(ids[w]) >= 0
      ensures inside ==> Valid() && State() == Give(old(State()), w)
      ensures !inside ==> used[..] == old(used[..])
    {
      FreedIndexIff(State(), w);
      var id := FreedIndex(tag);
      inside := 0 <= id < used.Length;
      if inside {
        GiveHeld(State(), w);
        used[id] := 0;
        ids := map v | v in ids && v != w :: ids[v];
        assert used[..] == old(used[..])[id := 0];
      }
    }
  }

  lemma FirstIs(used: seq<int>, i: nat)
    requires i < |used| && used[i] == 0 && forall j :: 0 <= j < i ==> used[j] != 0
    ensures FirstFree(used, 0) == i
  {
    assert FirstFree(used, 0) != -1;
  }
}
