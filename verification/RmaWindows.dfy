// Windows and their tag ranges: the allocator as a function of the windows created and freed so far,
// and when two windows get the same tags.
module RmaWindows {
  import opened Sequences

  const BASE_TAG := 65535
  const MAX_EPOCH := 1024
  const MAX_WIN := 32

  // The tag of epoch "e" (counted from 1) of a window that holds the tag range "id", -1 for none.
  function Tag(id: int, e: nat): int {
    BASE_TAG + MAX_EPOCH * id + e
  }

  // Within the size of a range, tags are equal only for the same range and epoch.
  lemma TagsDiffer(id: int, e: nat, id': int, e': nat)
    requires 1 <= e <= MAX_EPOCH && 1 <= e' <= MAX_EPOCH
    ensures Tag(id, e) == Tag(id', e') <==> id == id' && e == e'
  {
  }

  ghost predicate AllTagsDiffer(limit: nat) {
    forall id: nat, e: nat, id': nat, e': nat ::
      (&& id < MAX_WIN && id' < MAX_WIN && 1 <= e <= limit && 1 <= e' <= limit
       && Tag(id, e) == Tag(id', e')) ==> id == id' && e == e'
  }

  // Exactly up to the size of a range the tags of all ranges are different.
  lemma AllTagsDifferIff(limit: nat)
    ensures AllTagsDiffer(limit) <==> limit <= 1024
  {
    if limit <= MAX_EPOCH {
      forall id: nat, e: nat, id': nat, e': nat | id < MAX_WIN && id' < MAX_WIN && 1 <= e <= limit && 1 <= e' <= limit &&
        Tag(id, e) == Tag(id', e')
        ensures id == id' && e == e'
      {
        TagsDiffer(id, e, id', e');
      }
    } else {
      assert Tag(0, MAX_EPOCH + 1) == Tag(1, 1);
    }
  }

  // The tags of all ranges are the numbers from 65536 to 98303, each once.
  lemma TagsFill(tag: int)
    ensures 65536 <= tag <= 98303 <==> exists id: nat, e: nat :: id < 32 && 1 <= e <= 1024 && Tag(id, e) == tag
  {
    if 65536 <= tag <= 98303 {
      var id: nat, e: nat := (tag - 65536) / 1024, (tag - 65536) % 1024 + 1;
      assert id < 32 && 1 <= e <= 1024 && Tag(id, e) == tag;
    }
  }

  /* The allocator. */

  // Which ranges are taken (1) or free (0), and the range of every window that is alive.
  datatype Ranges = Ranges(used: seq<int>, ids: map<nat, int>)

  function NoRanges(): Ranges {
    Ranges(seq(MAX_WIN, i => 0), map[])
  }

  // The first free range from "i" on, or -1.
  function FirstFree(used: seq<int>, i: nat): (id: int)
    requires i <= |used|
    ensures -1 <= id < |used|
    ensures id == -1 <==> forall j :: i <= j < |used| ==> used[j] != 0
    ensures id >= 0 ==> i <= id && used[id] == 0 && forall j :: i <= j < id ==> used[j] != 0
    decreases |used| - i
  {
    if i == |used| then -1 else if used[i] == 0 then i else FirstFree(used, i + 1)
  }

  // A new window takes the first free range, or starts with -1 if there is none.
  function Take(r: Ranges, w: nat): Ranges {
    var id := FirstFree(r.used, 0);
    Ranges(if id >= 0 then r.used[id := 1] else r.used, r.ids[w := id])
  }

  // The place that freeing a window writes to.
  function FreedIndex(tag: int): int {
    var d := tag - BASE_TAG;
    if d >= 0 then d / MAX_EPOCH else -(-d / MAX_EPOCH)
  }

  predicate InRange(index: int) {
    0 <= index < MAX_WIN
  }

  // A window gives its range back.
  function Give(r: Ranges, w: nat): Ranges
    requires w in r.ids && 0 <= r.ids[w] < |r.used|
  {
    Ranges(r.used[r.ids[w] := 0], map v | v in r.ids && v != w :: r.ids[v])
  }

  // What holds of the ranges: each window has one of its own or -1, and a range is taken exactly if
  // a window that is alive has it.
  ghost predicate Held(r: Ranges) {
    && |r.used| == MAX_WIN
    && (forall w :: w in r.ids ==> -1 <= r.ids[w] < MAX_WIN)
    && (forall v, w :: v in r.ids && w in r.ids && v != w && r.ids[v] >= 0 ==> r.ids[v] != r.ids[w])
    && (forall i :: 0 <= i < MAX_WIN ==> (r.used[i] == 0 || r.used[i] == 1) && (r.used[i] == 1 <==> i in r.ids.Values))
  }

  lemma NoRangesHeld()
    ensures Held(NoRanges())
  {
  }

  lemma TakeHeld(r: Ranges, w: nat)
    requires Held(r) && w !in r.ids
    ensures Held(Take(r, w))
  {
    var id := FirstFree(r.used, 0);
    forall v | v in r.ids ensures r.ids[v] != id || id == -1 {
      assert r.ids[v] >= 0 ==> r.ids[v] in r.ids.Values;
    }
    ValuesWith(r.ids, w, id);
    var r' := Take(r, w);
    forall i | 0 <= i < MAX_WIN ensures (r'.used[i] == 0 || r'.used[i] == 1) && (r'.used[i] == 1 <==> i in r'.ids.Values) {
      assert i in r'.ids.Values <==> i in r.ids.Values || i == id;
    }
  }

  lemma ValuesWith(m: map<nat, int>, w: nat, id: int)
    requires w !in m
    ensures m[w := id].Values == m.Values + {id}
  {
    var n := m[w := id];
    assert n[w] == id;
    forall x | x in m.Values ensures x in n.Values {
      var v :| v in m && m[v] == x;
      assert n[v] == x;
    }
  }

  lemma GiveHeld(r: Ranges, w: nat)
    requires Held(r) && w in r.ids && r.ids[w] >= 0
    ensures Held(Give(r, w))
  {
    var r' := Give(r, w);
    forall i | 0 <= i < MAX_WIN ensures r'.used[i] == 1 <==> i in r'.ids.Values {
      if i in r.ids.Values && i != r.ids[w] {
        var v :| v in r.ids && r.ids[v] == i;
        assert r'.ids[v] == i;
      }
    }
  }

  // Freeing a window writes inside the array exactly if the window got a range, and then it is that
  // range.
  lemma FreedIndexIff(r: Ranges, w: nat)
    requires Held(r) && w in r.ids
    ensures InRange(FreedIndex(Tag(r.ids[w], 0))) <==> r.ids[w] >= 0
    ensures FreedIndex(Tag(r.ids[w], 0)) == r.ids[w]
  {
  }

  // Two windows that are alive share tags exactly if neither got a range.
  lemma SharedTagsIff(r: Ranges, v: nat, e: nat, w: nat, e': nat)
    requires Held(r) && v in r.ids && w in r.ids && v != w && 1 <= e <= MAX_EPOCH && 1 <= e' <= MAX_EPOCH
    ensures Tag(r.ids[v], e) == Tag(r.ids[w], e') <==> r.ids[v] == -1 && r.ids[w] == -1 && e == e'
  {
    TagsDiffer(r.ids[v], e, r.ids[w], e');
  }

  // A new window goes without a range exactly if as many windows as there are ranges have one.
  lemma FullIff(r: Ranges)
    requires Held(r) && forall w :: w in r.ids ==> r.ids[w] >= 0
    ensures FirstFree(r.used, 0) == -1 <==> |r.ids| >= 32
  {
    var all := Below(MAX_WIN);
    InjectiveSize(r.ids);
    FullIffAll(r, all);
    SubsetSize(r.ids.Values, all);
  }

  lemma FullIffAll(r: Ranges, all: set<int>)
    requires Held(r) && (forall w :: w in r.ids ==> r.ids[w] >= 0) && forall i :: i in all <==> 0 <= i < MAX_WIN
    ensures r.ids.Values <= all && (FirstFree(r.used, 0) == -1 <==> r.ids.Values == all)
  {
    if FirstFree(r.used, 0) == -1 {
      forall i | i in all ensures i in r.ids.Values {
        assert r.used[i] != 0;
      }
    } else {
      assert FirstFree(r.used, 0) in all && FirstFree(r.used, 0) !in r.ids.Values;
    }
  }

  ghost function Below(n: nat): (s: set<int>)
    ensures |s| == n && forall i :: i in s <==> 0 <= i < n
  {
    if n == 0 then {} else Below(n - 1) + {n - 1}
  }

  lemma ValuesWithout(m: map<nat, int>, n: map<nat, int>, w: nat)
    requires w in m && n == map v | v in m && v != w :: m[v]
    requires forall v :: v in m && v != w ==> m[v] != m[w]
    ensures m.Values == n.Values + {m[w]} && m[w] !in n.Values
  {
    forall x | x in m.Values ensures x in n.Values + {m[w]} {
      var v :| v in m && m[v] == x;
      if v != w {
        assert n[v] == x;
      }
    }
    forall x | x in n.Values ensures x in m.Values && x != m[w] {
      var v :| v in n && n[v] == x;
      assert m[v] == x;
    }
  }

  lemma {:induction false} InjectiveSize(m: map<nat, int>)
    requires forall v, w :: v in m && w in m && v != w ==> m[v] != m[w]
    ensures |m.Values| == |m|
    decreases |m|
  {
    if m != map[] {
      var w :| w in m;
      var n := map v | v in m && v != w :: m[v];
      assert m.Keys == n.Keys + {w};
      assert |m.Keys| == |m| && |n.Keys| == |n|;
      ValuesWithout(m, n, w);
      InjectiveSize(n);
    }
  }

  /* The windows of a program. All ranks create and free windows in the same order. */

  datatype Collective = Create | Free(w: nat)

  // The number of windows created by the first "n" of these calls; it is the next window's name.
  function Created(script: seq<Collective>, n: nat): nat
    requires n <= |script|
  {
    if n == 0 then 0 else Created(script, n - 1) + if script[n - 1].Create? then 1 else 0
  }

  // The ranges after the first "n" calls.
  function After(script: seq<Collective>, n: nat): Ranges
    requires n <= |script|
  {
    if n == 0 then NoRanges() else
      var r := After(script, n - 1);
      match script[n - 1]
      case Create => Take(r, Created(script, n - 1))
      case Free(w) => if w in r.ids && 0 <= r.ids[w] < |r.used| then Give(r, w) else r
  }

  // Windows that are alive are freed, and there are never more of them than ranges.
  ghost predicate ValidScript(script: seq<Collective>) {
    forall n :: 0 <= n < |script| ==> ValidAt(script, n)
  }

  ghost predicate ValidAt(script: seq<Collective>, n: nat)
    requires n < |script|
  {
    if script[n].Create? then |After(script, n).ids| < MAX_WIN else script[n].w in After(script, n).ids
  }

  lemma AfterStep(script: seq<Collective>, n: nat)
    requires n < |script|
    ensures script[n].Create? ==> After(script, n + 1) == Take(After(script, n), Created(script, n))
    ensures script[n].Free? && script[n].w in After(script, n).ids && 0 <= After(script, n).ids[script[n].w] < |After(script, n).used| ==>
      After(script, n + 1) == Give(After(script, n), script[n].w)
    ensures Created(script, n + 1) == Created(script, n) + if script[n].Create? then 1 else 0
  {
    hide Take, Give;
  }

  ghost predicate WellHeld(script: seq<Collective>, n: nat)
    requires n <= |script|
  {
    && Held(After(script, n))
    && forall w :: w in After(script, n).ids ==> After(script, n).ids[w] >= 0 && w < Created(script, n)
  }

  lemma StepHeld(script: seq<Collective>, n: nat)
    requires n < |script| && ValidAt(script, n) && WellHeld(script, n)
    ensures WellHeld(script, n + 1)
  {
    AfterStep(script, n);
    var r := After(script, n);
    hide After, Created, Held;
    if script[n].Create? {
      FullIff(r);
      TakeHeld(r, Created(script, n));
    } else {
      HeldRange(r, script[n].w);
      GiveHeld(r, script[n].w);
    }
  }

  lemma HeldRange(r: Ranges, w: nat)
    requires Held(r) && w in r.ids
    ensures -1 <= r.ids[w] < |r.used| && |r.used| == MAX_WIN
  {
  }

  lemma HeldDistinct(r: Ranges, v: nat, w: nat)
    requires Held(r) && v in r.ids && w in r.ids && r.ids[v] == r.ids[w] >= 0
    ensures v == w
  {
  }

  // In such a program every window that is alive has a range of its own.
  lemma {:induction false} AfterHeld(script: seq<Collective>, n: nat)
    requires ValidScript(script) && n <= |script|
    ensures WellHeld(script, n)
  {
    if n == 0 {
      NoRangesHeld();
    } else {
      AfterHeld(script, n - 1);
      hide WellHeld, After, Created;
      assert ValidAt(script, n - 1);
      StepHeld(script, n - 1);
    }
  }

  lemma {:induction false} CreatedGrows(script: seq<Collective>, n: nat, m: nat)
    requires n <= m <= |script|
    ensures Created(script, n) <= Created(script, m)
  {
    if n < m {
      CreatedGrows(script, n, m - 1);
    }
  }

  ghost predicate FreedBetween(script: seq<Collective>, w: nat, n: nat, m: nat) {
    exists f :: n <= f < m && f < |script| && script[f] == Free(w)
  }

  // One call leaves every other window as it is.
  lemma OthersStay(script: seq<Collective>, w: nat, n: nat)
    requires ValidScript(script) && n < |script|
    ensures w in After(script, n).ids && script[n] != Free(w) ==>
              w in After(script, n + 1).ids && After(script, n + 1).ids[w] == After(script, n).ids[w]
    ensures script[n] == Free(w) ==> w in After(script, n).ids && w !in After(script, n + 1).ids
    ensures w !in After(script, n).ids && w < Created(script, n) ==> w !in After(script, n + 1).ids
    ensures w in After(script, n + 1).ids && w !in After(script, n).ids ==> script[n].Create?
  {
    AfterHeld(script, n);
    AfterStep(script, n);
    assert ValidAt(script, n);
    var r := After(script, n);
    hide After, Created, Held, ValidScript;
    if script[n].Free? {
      HeldRange(r, script[n].w);
    }
  }

  // A window keeps its range until it is freed; once freed it does not come back.
  lemma {:induction false} AliveUntilFreed(script: seq<Collective>, w: nat, n: nat, m: nat)
    requires ValidScript(script) && n <= m <= |script| && w in After(script, n).ids
    ensures w < Created(script, m)
    ensures !FreedBetween(script, w, n, m) ==>
              w in After(script, m).ids && After(script, m).ids[w] == After(script, n).ids[w]
    ensures FreedBetween(script, w, n, m) ==> w !in After(script, m).ids
    decreases m - n
  {
    AliveIsCreated(script, w, n);
    CreatedGrows(script, n, m);
    if n < m {
      hide After, Created, Held, ValidScript, FreedBetween;
      AliveUntilFreed(script, w, n, m - 1);
      CreatedGrows(script, m - 1, m);
      OthersStay(script, w, m - 1);
      FreedOneMore(script, w, n, m);
    }
  }

  lemma AliveIsCreated(script: seq<Collective>, w: nat, n: nat)
    requires ValidScript(script) && n <= |script| && w in After(script, n).ids
    ensures w < Created(script, n) && 0 <= After(script, n).ids[w]
  {
    hide Held, ValidScript, After, Created;
    AfterHeld(script, n);
  }

  lemma FreedOneMore(script: seq<Collective>, w: nat, n: nat, m: nat)
    requires n < m <= |script|
    ensures FreedBetween(script, w, n, m) <==> FreedBetween(script, w, n, m - 1) || script[m - 1] == Free(w)
  {
    if script[m - 1] == Free(w) {
      assert FreedBetween(script, w, n, m);
    }
  }

  // Two windows with the same range are not alive together: the earlier one is freed, and only after
  // that is the later one created.
  lemma ReuseIsAfterFree(script: seq<Collective>, v: nat, n: nat, w: nat, m: nat) returns (f: nat)
    requires ValidScript(script) && n <= m <= |script| && v != w
    requires v in After(script, n).ids && w in After(script, m).ids && After(script, n).ids[v] == After(script, m).ids[w]
    ensures n <= f && f + 1 < m && script[f] == Free(v)
  {
    hide After, Created, ValidScript;
    AliveUntilFreed(script, v, n, m);
    if !FreedBetween(script, v, n, m) {
      AliveDistinct(script, v, w, m);
    }
    f :| n <= f < m && f < |script| && script[f] == Free(v);
    if f + 1 == m {
      OthersStay(script, v, f);
      OthersStay(script, w, f);
      AliveUntilFreed(script, v, n, f);
      AliveDistinct(script, v, w, f);
    }
  }

  lemma AliveDistinct(script: seq<Collective>, v: nat, w: nat, n: nat)
    requires ValidScript(script) && n <= |script| && v in After(script, n).ids && w in After(script, n).ids
    requires After(script, n).ids[v] == After(script, n).ids[w]
    ensures v == w
  {
    hide After, Created, ValidScript, Held;
    AfterHeld(script, n);
    HeldDistinct(After(script, n), v, w);
  }
}
