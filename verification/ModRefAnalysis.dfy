// The mod/ref analysis itself: kill sets and then a fixed point, component by component.
module ModRefAnalysis {
  import opened ModRef
  import opened Sequences

  // The state while component "k" is brought to its fixed point: kill sets have been taken off,
  // and what is there has a path.
  ghost predicate Under(g: CallGraph, local: PerFunction, own: PerFunction, m: PerFunction, k: nat)
    requires g.Valid()
  {
    && Sound(g, local, own, m, Before(g, k + 1)) && HoldsOwn(g, local, own, m, Before(g, k + 1))
    && (forall f :: f in Before(g, k) ==> HoldsCallees(g, local, m, f))
    && (forall f :: f in g.defined && f !in Before(g, k + 1) ==> At(m, f) == At(own, f))
  }

  // The caller takes over what the callee touches, less its own kill set.
  function AddFrom(m: PerFunction, f: nat, c: nat, kill: Regions): PerFunction {
    m[f := At(m, f) + (At(m, c) - kill)]
  }

  // Calls stay in this component or go to earlier ones.
  lemma CallsGoDown(g: CallGraph, f: nat, c: nat)
    requires g.Valid() && g.Calls(f, c)
    ensures f in g.sccOf && c in g.sccOf && g.sccOf[c] <= g.sccOf[f]
    ensures c in Before(g, g.sccOf[f] + 1) && f in Before(g, g.sccOf[f] + 1) && f !in Before(g, g.sccOf[f])
  {
  }

  lemma AddFromSound(g: CallGraph, local: PerFunction, own: PerFunction, m: PerFunction, f: nat, c: nat, fs: set<nat>)
    requires g.Valid() && Sound(g, local, own, m, fs) && g.Calls(f, c) && c in fs
    ensures Sound(g, local, own, AddFrom(m, f, c, Kill(g, local, f)), fs)
  {
    hide Kill, Touches, CallGraph.Valid, CallGraph.Calls;
    var m' := AddFrom(m, f, c, Kill(g, local, f));
    forall h, r | h in fs && r in At(m', h) ensures Touches(g, local, own, h, r) {
      if r !in At(m, h) {
        TouchesThrough(g, local, own, f, c, r);
      }
    }
  }

  // Functions that do not call "f" are not affected when its set grows.
  lemma GrowthKeepsOthers(g: CallGraph, local: PerFunction, m: PerFunction, m': PerFunction, f: nat, h: nat)
    requires g.Valid() && GrewAt(m, m', f) && HoldsCallees(g, local, m, h) && h != f && !g.Calls(h, f)
    ensures HoldsCallees(g, local, m', h)
  {
    hide Kill, CallGraph.Valid, CallGraph.Calls;
  }

  lemma AddFromGrows(m: PerFunction, f: nat, c: nat, kill: Regions)
    ensures GrewAt(m, AddFrom(m, f, c, kill), f)
  {
  }

  // Growing one set of the component.
  lemma GrowthKeepsUnder(g: CallGraph, local: PerFunction, own: PerFunction, m: PerFunction, m': PerFunction, k: nat, f: nat)
    requires g.Valid() && Under(g, local, own, m, k) && GrewAt(m, m', f) && f in Before(g, k + 1) && f in g.sccOf && g.sccOf[f] == k
    requires Sound(g, local, own, m', Before(g, k + 1))
    ensures Under(g, local, own, m', k)
  {
    hide Kill, Sound, HoldsCallees, CallGraph.Valid, CallGraph.Calls;
    forall h | h in Before(g, k) ensures HoldsCallees(g, local, m', h) {
      NoCallsUp(g, h, f, k);
      GrowthKeepsOthers(g, local, m, m', f, h);
    }
  }

  lemma AddFromKeeps(g: CallGraph, local: PerFunction, own: PerFunction, m: PerFunction, k: nat, f: nat, c: nat)
    requires g.Valid() && Under(g, local, own, m, k) && g.Calls(f, c) && f in g.sccOf && g.sccOf[f] == k
    ensures Under(g, local, own, AddFrom(m, f, c, Kill(g, local, f)), k)
    ensures GrewAt(m, AddFrom(m, f, c, Kill(g, local, f)), f)
  {
    CallsGoDown(g, f, c);
    AddFromSound(g, local, own, m, f, c, Before(g, k + 1));
    AddFromGrows(m, f, c, Kill(g, local, f));
    hide Kill, Sound, HoldsOwn, HoldsCallees, CallGraph.Valid, CallGraph.Calls, Before, AddFrom, GrewAt;
    GrowthKeepsUnder(g, local, own, m, AddFrom(m, f, c, Kill(g, local, f)), k, f);
  }

  lemma NoCallsUp(g: CallGraph, h: nat, f: nat, k: nat)
    requires g.Valid() && h in Before(g, k) && f in g.sccOf && g.sccOf[f] == k
    ensures !g.Calls(h, f)
  {
  }

  // "m" only grew, and only at "f".
  ghost predicate GrewAt(m0: PerFunction, m: PerFunction, f: nat) {
    At(m0, f) <= At(m, f) && forall h :: h != f ==> At(m, h) == At(m0, h)
  }

  // Taking the kill sets off one component.
  lemma KillsOff(g: CallGraph, local: PerFunction, own: PerFunction, m0: PerFunction, m: PerFunction, k: nat)
    requires g.Valid() && Done(g, local, own, m0, k)
    requires forall f :: f in g.defined && f in g.sccOf && g.sccOf[f] == k ==> At(m, f) == At(m0, f) - Kill(g, local, f)
    requires forall f :: f in g.defined && f in g.sccOf && g.sccOf[f] != k ==> At(m, f) == At(m0, f)
    ensures Under(g, local, own, m, k)
  {
    hide Kill, Touches;
    forall f, r | f in Before(g, k + 1) && r in At(m, f) ensures Touches(g, local, own, f, r) {
      if f !in Before(g, k) {
        TouchesItself(g, local, own, f, r);
      }
    }
    EarlierStillHold(g, local, m0, m, k);
    hide HoldsCallees, CallGraph.Valid;
  }

  // Components before "k" are not touched, nor is anything they call.
  lemma EarlierStillHold(g: CallGraph, local: PerFunction, m0: PerFunction, m: PerFunction, k: nat)
    requires g.Valid() && forall f :: f in Before(g, k) ==> HoldsCallees(g, local, m0, f)
    requires forall f :: f in Before(g, k) ==> At(m, f) == At(m0, f)
    ensures forall f :: f in Before(g, k) ==> HoldsCallees(g, local, m, f)
  {
    hide Kill;
    forall f | f in Before(g, k) ensures HoldsCallees(g, local, m, f) {
      assert HoldsCallees(g, local, m0, f);
      assert forall c :: g.Calls(f, c) ==> c in Before(g, k);
    }
  }

  lemma FixedPointDone(g: CallGraph, local: PerFunction, own: PerFunction, m: PerFunction, k: nat)
    requires g.Valid() && Under(g, local, own, m, k)
    requires forall f :: f in g.defined && f in g.sccOf && g.sccOf[f] == k ==> HoldsCallees(g, local, m, f)
    ensures Done(g, local, own, m, k + 1)
  {
    hide Kill, Touches, HoldsCallees;
  }

  /* Termination: sets stay within what some function touches itself. */

  ghost function AllRegions(own: PerFunction): Regions {
    set f, r | f in own && r in own[f] :: r
  }

  // The pairs of function and region not found so far.
  ghost function Missing(g: CallGraph, own: PerFunction, m: PerFunction): set<(nat, nat)> {
    set f, r | f in g.defined && r in AllRegions(own) && r !in At(m, f) :: (f, r)
  }

  lemma SoundStaysInside(g: CallGraph, local: PerFunction, own: PerFunction, m: PerFunction, fs: set<nat>, f: nat, r: nat)
    requires g.Valid() && Sound(g, local, own, m, fs) && f in fs && r in At(m, f)
    ensures r in AllRegions(own)
  {
    assert Touches(g, local, own, f, r);
    var p :| IsTouchPath(g, local, own, r, p) && p[0] == f;
    assert r in At(own, p[|p| - 1]);
  }

  lemma MissingShrinks(g: CallGraph, local: PerFunction, own: PerFunction, m0: PerFunction, m: PerFunction, k: nat)
    requires g.Valid() && Under(g, local, own, m, k) && forall h :: At(m0, h) <= At(m, h)
    ensures Missing(g, own, m) <= Missing(g, own, m0)
    ensures (exists h :: h in Before(g, k + 1) && At(m0, h) != At(m, h)) ==> Missing(g, own, m) < Missing(g, own, m0)
  {
    hide Kill, Touches;
    if h :| h in Before(g, k + 1) && At(m0, h) != At(m, h) {
      var r :| r in At(m, h) && r !in At(m0, h);
      SoundStaysInside(g, local, own, m, Before(g, k + 1), h, r);
      assert (h, r) in Missing(g, own, m0) && (h, r) !in Missing(g, own, m);
    }
  }

  class Analysis {
    const g: CallGraph
    const local: PerFunction
    ghost const mod0: PerFunction
    ghost const ref0: PerFunction
    var mod: PerFunction
    var ref: PerFunction
    var kill: PerFunction

    constructor (g: CallGraph, local: PerFunction, mod: PerFunction, ref: PerFunction)
      ensures this.g == g && this.local == local && this.mod0 == mod && this.ref0 == ref
      ensures this.mod == mod && this.ref == ref && this.kill == map[]
    {
      this.g, this.local, this.mod0, this.ref0 := g, local, mod, ref;
      this.mod, this.ref, this.kill := mod, ref, map[];
    }

    ghost predicate KillsDone(k: nat)
      requires g.Valid()
      reads this
    {
      forall f :: f in Before(g, k) ==> At(kill, f) == Kill(g, local, f)
    }

    ghost predicate Fixing(k: nat)
      requires g.Valid()
      reads this
    {
      KillsDone(k + 1) && Under(g, local, mod0, mod, k) && Under(g, local, ref0, ref, k)
    }

    // One function: its kill set is collected from the callees outside the component and taken off.
    method ComputeKill(f: nat, k: nat)
      requires g.Valid() && f in g.defined && f in g.sccOf && g.sccOf[f] == k && KillsDone(k)
      requires At(kill, f) <= Kill(g, local, f)
      modifies this
      ensures kill == old(kill)[f := Kill(g, local, f)]
      ensures mod == old(mod)[f := At(old(mod), f) - Kill(g, local, f)]
      ensures ref == old(ref)[f := At(old(ref), f) - Kill(g, local, f)]
    {
      hide Kill, CallGraph.Valid, CallGraph.Leaves, CallGraph.Calls, Before;
      var cs := g.Callees(f);
      var killed := At(kill, f);
      for i := 0 to |cs|
        invariant kill == old(kill) && mod == old(mod) && ref == old(ref)
        invariant killed <= Kill(g, local, f)
        invariant forall c :: c in cs[..i] && g.Leaves(f, c) ==> At(local, c) + Kill(g, local, c) <= killed
      {
        var c := cs[i];
        assert c in cs;
        LeavesIffOutside(g, f, c, k);
        if c in g.defined && c != f && c !in g.sccs[k] {
          CalleeKills(g, local, f, c);
          killed := killed + At(local, c) + At(kill, c);
        }
      }
      assert cs[..|cs|] == cs;
      AllCollected(g, local, f, killed);
      kill := kill[f := killed];
      mod := mod[f := At(mod, f) - killed];
      ref := ref[f := At(ref, f) - killed];
    }

    // The kill sets of one component.
    method ComputeKills(k: nat)
      requires g.Valid() && k < |g.sccs| && KillsDone(k) && (forall f :: f in g.defined && f !in Before(g, k) ==> At(kill, f) == {})
      requires Done(g, local, mod0, mod, k) && Done(g, local, ref0, ref, k)
      modifies this
      ensures Fixing(k) && (forall f :: f in g.defined && f !in Before(g, k + 1) ==> At(kill, f) == {})
    {
      var nodes := g.sccs[k];
      hide Kill, CallGraph.Valid, Done, Under, Before, Treated, KilledOff;
      NoneTreated(g, local, kill, mod, ref);
      for i := 0 to |nodes|
        invariant Treated(g, local, old(kill), kill, nodes[..i])
        invariant KilledOff(g, local, old(mod), mod, nodes[..i]) && KilledOff(g, local, old(ref), ref, nodes[..i])
      {
        var f := nodes[i];
        assert nodes[..i + 1] == nodes[..i] + [f];
        if f in g.defined {
          NodeOfComponent(g, k, f);
          TreatedKeepsDone(g, local, old(kill), kill, nodes[..i], k);
          OneTreated(g, local, old(kill), kill, nodes[..i], f);
          OneKilledOff(g, local, old(mod), mod, nodes[..i], f);
          OneKilledOff(g, local, old(ref), ref, nodes[..i], f);
          ComputeKill(f, k);
        } else {
          NoFunction(g, local, old(kill), kill, old(mod), mod, old(ref), ref, nodes[..i], f);
        }
      }
      assert nodes[..|nodes|] == nodes;
      ComponentKilled(g, local, mod0, old(mod), mod, k);
      ComponentKilled(g, local, ref0, old(ref), ref, k);
      ComponentTreated(g, local, old(kill), kill, k);
    }

    // One function takes over from all its callees.
    method UpdateFunction(f: nat, k: nat)
      requires g.Valid() && Fixing(k) && f in g.defined && f in g.sccOf && g.sccOf[f] == k
      modifies this`mod, this`ref
      ensures Fixing(k)
      ensures GrewAt(old(mod), mod, f) && GrewAt(old(ref), ref, f)
      ensures HoldsCallees(g, local, mod, f) && HoldsCallees(g, local, ref, f)
    {
      hide Kill, CallGraph.Valid, Under, Before, HoldsCallees;
      KillOfMember(g, f, k);
      var cs := g.Callees(f);
      for i := 0 to |cs|
        invariant KillsDone(k + 1) && Under(g, local, mod0, mod, k) && Under(g, local, ref0, ref, k)
        invariant GrewAt(old(mod), mod, f) && GrewAt(old(ref), ref, f)
        invariant HoldsFrom(g, local, mod, f, cs[..i]) && HoldsFrom(g, local, ref, f, cs[..i])
      {
        var c := cs[i];
        assert c in cs && cs[..i + 1] == cs[..i] + [c];
        if c in g.defined && c != f {
          assert g.Calls(f, c);
          AddFromKeeps(g, local, mod0, mod, k, f, c);
          AddFromKeeps(g, local, ref0, ref, k, f, c);
          mod := AddFrom(mod, f, c, At(kill, f));
          ref := AddFrom(ref, f, c, At(kill, f));
        }
      }
      assert cs[..|cs|] == cs;
      AllTakenOver(g, local, mod, f);
      AllTakenOver(g, local, ref, f);
    }

    // One pass over the component; whether a set grew shows in its size.
    method Pass(k: nat) returns (changed: bool)
      requires g.Valid() && Fixing(k) && k < |g.sccs|
      modifies this`mod, this`ref
      ensures Fixing(k) && Grew(old(mod), mod) && Grew(old(ref), ref)
      ensures changed ==> GrewIn(g, old(mod), mod, k) || GrewIn(g, old(ref), ref, k)
      ensures !changed ==> AllHold(g, local, mod, g.sccs[k]) && AllHold(g, local, ref, g.sccs[k])
    {
      changed := false;
      var nodes := g.sccs[k];
      hide Kill, CallGraph.Valid, Under, Before, HoldsCallees, AllHold, GrewIn;
      NoneHold(g, local, mod);
      NoneHold(g, local, ref);
      for i := 0 to |nodes|
        invariant Fixing(k) && Grew(old(mod), mod) && Grew(old(ref), ref)
        invariant changed ==> GrewIn(g, old(mod), mod, k) || GrewIn(g, old(ref), ref, k)
        invariant !changed ==> AllHold(g, local, mod, nodes[..i]) && AllHold(g, local, ref, nodes[..i])
      {
        var f := nodes[i];
        assert nodes[..i + 1] == nodes[..i] + [f];
        if f in g.defined {
          NodeOfComponent(g, k, f);
          ghost var m, r := mod, ref;
          var modSize, refSize := |At(mod, f)|, |At(ref, f)|;
          UpdateFunction(f, k);
          GrewAtSize(g, m, mod, f, k);
          GrewAtSize(g, r, ref, f, k);
          GrewInLater(g, old(mod), m, mod, k);
          GrewInLater(g, old(ref), r, ref, k);
          if |At(mod, f)| > modSize || |At(ref, f)| > refSize {
            changed := true;
          }
          if !changed {
            OneHolds(g, local, m, mod, nodes[..i], f);
            OneHolds(g, local, r, ref, nodes[..i], f);
          }
        } else {
          NotAFunction(g, local, mod, nodes[..i], f);
          NotAFunction(g, local, ref, nodes[..i], f);
        }
      }
      assert nodes[..|nodes|] == nodes;
    }

    // Passes until nothing changes.
    method FixedPoint(k: nat)
      requires g.Valid() && Fixing(k) && k < |g.sccs|
      modifies this`mod, this`ref
      ensures KillsDone(k + 1) && Done(g, local, mod0, mod, k + 1) && Done(g, local, ref0, ref, k + 1)
    {
      hide Kill, CallGraph.Valid, Under, Before, AllHold, GrewIn, Missing, Done;
      var changed := true;
      while changed
        invariant Fixing(k)
        invariant !changed ==> AllHold(g, local, mod, g.sccs[k]) && AllHold(g, local, ref, g.sccs[k])
        decreases Missing(g, mod0, mod), Missing(g, ref0, ref), changed
      {
        ghost var m, r := mod, ref;
        changed := Pass(k);
        LessMissing(g, local, mod0, m, mod, k);
        LessMissing(g, local, ref0, r, ref, k);
      }
      ComponentDone(g, local, mod0, mod, k);
      ComponentDone(g, local, ref0, ref, k);
    }

    // All components: a region is in the set of a function exactly when a path of calls that does
    // not kill it leads to a function that touches it.
    method Analyze()
      requires g.Valid() && mod == mod0 && ref == ref0 && kill == map[]
      modifies this
      ensures forall f :: f in g.defined ==> At(kill, f) == Kill(g, local, f)
      ensures forall f, r :: f in g.defined ==> (r in At(mod, f) <==> Touches(g, local, mod0, f, r))
      ensures forall f, r :: f in g.defined ==> (r in At(ref, f) <==> Touches(g, local, ref0, f, r))
    {
      hide Kill, CallGraph.Valid, Done, Before, Under, Touches;
      StartsDone(g, local, mod);
      StartsDone(g, local, ref);
      for k := 0 to |g.sccs|
        invariant KillsDone(k) && (forall f :: f in g.defined && f !in Before(g, k) ==> At(kill, f) == {})
        invariant Done(g, local, mod0, mod, k) && Done(g, local, ref0, ref, k)
      {
        ComputeKills(k);
        FixedPoint(k);
      }
      AllBefore(g);
      DoneMeans(g, local, mod0, mod, |g.sccs|);
      DoneMeans(g, local, ref0, ref, |g.sccs|);
    }
  }

  /* Small facts about the sets. */

  ghost predicate Grew(m0: PerFunction, m: PerFunction) {
    forall h :: At(m0, h) <= At(m, h)
  }

  // Some set of the component, or of one before, grew.
  ghost predicate GrewIn(g: CallGraph, m0: PerFunction, m: PerFunction, k: nat) {
    exists h :: h in Before(g, k + 1) && At(m0, h) != At(m, h)
  }

  ghost predicate AllHold(g: CallGraph, local: PerFunction, m: PerFunction, nodes: seq<nat>)
    requires g.Valid()
  {
    forall f :: f in nodes && f in g.defined ==> HoldsCallees(g, local, m, f)
  }

  lemma NoneHold(g: CallGraph, local: PerFunction, m: PerFunction)
    requires g.Valid()
    ensures AllHold(g, local, m, [])
  {
  }

  lemma NotAFunction(g: CallGraph, local: PerFunction, m: PerFunction, nodes: seq<nat>, f: nat)
    requires g.Valid() && f !in g.defined
    ensures AllHold(g, local, m, nodes) ==> AllHold(g, local, m, nodes + [f])
  {
    hide HoldsCallees, CallGraph.Valid;
  }

  lemma OneHolds(g: CallGraph, local: PerFunction, m0: PerFunction, m: PerFunction, nodes: seq<nat>, f: nat)
    requires g.Valid() && AllHold(g, local, m0, nodes) && HoldsCallees(g, local, m, f)
    requires forall h :: At(m0, h) == At(m, h)
    ensures AllHold(g, local, m, nodes + [f])
  {
    hide Kill, CallGraph.Valid;
    forall h | h in nodes && h in g.defined ensures HoldsCallees(g, local, m, h) {
      assert HoldsCallees(g, local, m0, h);
    }
  }

  lemma GrewAtSize(g: CallGraph, m0: PerFunction, m: PerFunction, f: nat, k: nat)
    requires GrewAt(m0, m, f) && f in g.defined && f in g.sccOf && g.sccOf[f] == k
    ensures Grew(m0, m)
    ensures if |At(m, f)| > |At(m0, f)| then GrewIn(g, m0, m, k) else forall h :: At(m0, h) == At(m, h)
  {
    SubsetSize(At(m0, f), At(m, f));
    KillOfMember(g, f, k);
  }

  lemma GrewInLater(g: CallGraph, m0: PerFunction, m1: PerFunction, m2: PerFunction, k: nat)
    requires Grew(m0, m1) && Grew(m1, m2)
    ensures Grew(m0, m2)
    ensures GrewIn(g, m0, m1, k) || GrewIn(g, m1, m2, k) ==> GrewIn(g, m0, m2, k)
  {
    if h :| h in Before(g, k + 1) && At(m0, h) != At(m1, h) {
      assert At(m0, h) != At(m2, h);
    } else if h :| h in Before(g, k + 1) && At(m1, h) != At(m2, h) {
      assert At(m0, h) != At(m2, h);
    }
  }

  lemma LessMissing(g: CallGraph, local: PerFunction, own: PerFunction, m0: PerFunction, m: PerFunction, k: nat)
    requires g.Valid() && Under(g, local, own, m, k) && Grew(m0, m)
    ensures Missing(g, own, m) <= Missing(g, own, m0)
    ensures GrewIn(g, m0, m, k) ==> Missing(g, own, m) < Missing(g, own, m0)
  {
    hide Kill, Under, CallGraph.Valid;
    MissingShrinks(g, local, own, m0, m, k);
  }

  lemma ComponentDone(g: CallGraph, local: PerFunction, own: PerFunction, m: PerFunction, k: nat)
    requires g.Valid() && Under(g, local, own, m, k) && k < |g.sccs| && AllHold(g, local, m, g.sccs[k])
    ensures Done(g, local, own, m, k + 1)
  {
    hide Kill, Under, Done, HoldsCallees;
    FixedPointDone(g, local, own, m, k);
  }

  lemma StartsDone(g: CallGraph, local: PerFunction, own: PerFunction)
    requires g.Valid()
    ensures Done(g, local, own, own, 0) && Before(g, 0) == {}
  {
  }

  lemma AllBefore(g: CallGraph)
    requires g.Valid()
    ensures Before(g, |g.sccs|) == g.defined
  {
  }

  // What the given callees touch is in the set.
  ghost predicate HoldsFrom(g: CallGraph, local: PerFunction, m: PerFunction, f: nat, cs: seq<nat>)
    requires g.Valid()
  {
    forall c :: c in cs && g.Calls(f, c) ==> At(m, c) - Kill(g, local, f) <= At(m, f)
  }

  lemma AllTakenOver(g: CallGraph, local: PerFunction, m: PerFunction, f: nat)
    requires g.Valid() && HoldsFrom(g, local, m, f, g.Callees(f))
    ensures HoldsCallees(g, local, m, f)
  {
    hide Kill;
  }

  lemma KillOfMember(g: CallGraph, f: nat, k: nat)
    requires f in g.defined && f in g.sccOf && g.sccOf[f] == k
    ensures f in Before(g, k + 1)
  {
  }

  lemma LeavesIffOutside(g: CallGraph, f: nat, c: nat, k: nat)
    requires g.Valid() && f in g.defined && f in g.sccOf && g.sccOf[f] == k && c in g.Callees(f)
    ensures k < |g.sccs|
    ensures g.Leaves(f, c) <==> c in g.defined && c != f && c !in g.sccs[k]
    ensures g.Leaves(f, c) ==> c in Before(g, k)
  {
  }

  lemma AllCollected(g: CallGraph, local: PerFunction, f: nat, killed: Regions)
    requires g.Valid() && killed <= Kill(g, local, f)
    requires forall c :: c in g.Callees(f) && g.Leaves(f, c) ==> At(local, c) + Kill(g, local, c) <= killed
    ensures killed == Kill(g, local, f)
  {
  }

  lemma CalleeKills(g: CallGraph, local: PerFunction, f: nat, c: nat)
    requires g.Valid() && g.Leaves(f, c)
    ensures At(local, c) + Kill(g, local, c) <= Kill(g, local, f)
  {
  }

  // The kill sets of "nodes" have been computed and no other.
  ghost predicate Treated(g: CallGraph, local: PerFunction, kill0: PerFunction, kill: PerFunction, nodes: seq<nat>)
    requires g.Valid()
  {
    forall f :: f in g.defined ==> At(kill, f) == if f in nodes then Kill(g, local, f) else At(kill0, f)
  }

  ghost predicate KilledOff(g: CallGraph, local: PerFunction, m0: PerFunction, m: PerFunction, nodes: seq<nat>)
    requires g.Valid()
  {
    forall f :: f in g.defined ==> At(m, f) == if f in nodes then At(m0, f) - Kill(g, local, f) else At(m0, f)
  }

  lemma NoneTreated(g: CallGraph, local: PerFunction, kill: PerFunction, mod: PerFunction, ref: PerFunction)
    requires g.Valid()
    ensures Treated(g, local, kill, kill, []) && KilledOff(g, local, mod, mod, []) && KilledOff(g, local, ref, ref, [])
  {
    hide Kill, CallGraph.Valid;
  }

  lemma OneTreated(g: CallGraph, local: PerFunction, kill0: PerFunction, kill: PerFunction, nodes: seq<nat>, f: nat)
    requires g.Valid() && Treated(g, local, kill0, kill, nodes) && f in g.defined
    ensures Treated(g, local, kill0, kill[f := Kill(g, local, f)], nodes + [f])
  {
    hide Kill, CallGraph.Valid;
    assert forall h :: h in nodes + [f] <==> h in nodes || h == f;
  }

  lemma OneKilledOff(g: CallGraph, local: PerFunction, m0: PerFunction, m: PerFunction, nodes: seq<nat>, f: nat)
    requires g.Valid() && KilledOff(g, local, m0, m, nodes) && f in g.defined
    ensures KilledOff(g, local, m0, m[f := At(m, f) - Kill(g, local, f)], nodes + [f])
  {
    hide Kill, CallGraph.Valid;
    assert forall h :: h in nodes + [f] <==> h in nodes || h == f;
  }

  lemma NoFunction(g: CallGraph, local: PerFunction, kill0: PerFunction, kill: PerFunction, mod0: PerFunction, mod: PerFunction,
                   ref0: PerFunction, ref: PerFunction, nodes: seq<nat>, f: nat)
    requires g.Valid() && Treated(g, local, kill0, kill, nodes) && f !in g.defined
    requires KilledOff(g, local, mod0, mod, nodes) && KilledOff(g, local, ref0, ref, nodes)
    ensures Treated(g, local, kill0, kill, nodes + [f])
    ensures KilledOff(g, local, mod0, mod, nodes + [f]) && KilledOff(g, local, ref0, ref, nodes + [f])
  {
    hide Kill, CallGraph.Valid;
  }

  lemma NodeOfComponent(g: CallGraph, k: nat, f: nat)
    requires g.Valid() && k < |g.sccs| && f in g.sccs[k] && f in g.defined
    ensures f in g.sccOf && g.sccOf[f] == k && f !in Before(g, k)
  {
  }

  lemma TreatedKeepsDone(g: CallGraph, local: PerFunction, kill0: PerFunction, kill: PerFunction, nodes: seq<nat>, k: nat)
    requires g.Valid() && Treated(g, local, kill0, kill, nodes)
    requires forall f :: f in Before(g, k) ==> At(kill0, f) == Kill(g, local, f)
    requires forall f :: f in g.defined && f !in Before(g, k) ==> At(kill0, f) == {}
    ensures forall f :: f in Before(g, k) ==> At(kill, f) == Kill(g, local, f)
    ensures forall f :: f in g.defined ==> At(kill, f) <= Kill(g, local, f)
  {
    hide Kill, CallGraph.Valid;
  }

  lemma ComponentKilled(g: CallGraph, local: PerFunction, own: PerFunction, m0: PerFunction, m: PerFunction, k: nat)
    requires g.Valid() && k < |g.sccs| && Done(g, local, own, m0, k) && KilledOff(g, local, m0, m, g.sccs[k])
    ensures Under(g, local, own, m, k)
  {
    hide Kill, Done, Under;
    KillsOff(g, local, own, m0, m, k);
  }

  lemma ComponentTreated(g: CallGraph, local: PerFunction, kill0: PerFunction, kill: PerFunction, k: nat)
    requires g.Valid() && k < |g.sccs| && Treated(g, local, kill0, kill, g.sccs[k])
    requires forall f :: f in Before(g, k) ==> At(kill0, f) == Kill(g, local, f)
    requires forall f :: f in g.defined && f !in Before(g, k) ==> At(kill0, f) == {}
    ensures forall f :: f in Before(g, k + 1) ==> At(kill, f) == Kill(g, local, f)
    ensures forall f :: f in g.defined && f !in Before(g, k + 1) ==> At(kill, f) == {}
  {
    hide Kill;
  }
}
