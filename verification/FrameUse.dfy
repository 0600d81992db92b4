/** How each change to a frame's use keeps `mem_map` and the page tables consistent: the part of
    the paging invariant that `Paging.FramesOk` states, one change at a time. */
module FrameUse {
  import opened Paging

  lemma Take(start: nat, high: nat, memMap: seq<nat>, role: map<nat, Role>, dir: map<Dir, nat>, pte: map<Loc, Pte>,
             f: nat)
    requires FramesOk(start, high, memMap, role, dir, pte) && f < |memMap| && memMap[f] == 0
    ensures f !in role && forall l | l in pte :: !Maps(pte[l], f)
    ensures FramesOk(start, high, memMap[f := 1], role[f := Held], dir, pte)
  {
  }

  lemma Drop(start: nat, high: nat, memMap: seq<nat>, role: map<nat, Role>, dir: map<Dir, nat>, pte: map<Loc, Pte>,
             f: nat)
    requires FramesOk(start, high, memMap, role, dir, pte) && f in role && role[f].Held?
    ensures f < |memMap| && memMap[f] == 1 && forall l | l in pte :: !Maps(pte[l], f)
    ensures FramesOk(start, high, memMap[f := 0], role - {f}, dir, pte)
  {
  }

  lemma MakeTable(start: nat, high: nat, memMap: seq<nat>, role: map<nat, Role>, dir: map<Dir, nat>,
                  pte: map<Loc, Pte>, f: nat, k: Dir)
    requires FramesOk(start, high, memMap, role, dir, pte) && f in role && role[f].Held? && k !in dir
    ensures FramesOk(start, high, memMap, role[f := Table(k)], dir[k := f], pte)
  {
  }

  lemma DropTable(start: nat, high: nat, memMap: seq<nat>, role: map<nat, Role>, dir: map<Dir, nat>,
                  pte: map<Loc, Pte>, k: Dir)
    requires FramesOk(start, high, memMap, role, dir, pte) && k in dir
    ensures memMap[dir[k]] == 1
    ensures FramesOk(start, high, memMap[dir[k] := 0], role - {dir[k]}, dir - {k}, pte)
  {
  }

  /** A kernel-owned frame becomes the user page of `l`, which mapped no frame before. */
  lemma MapHeld(start: nat, high: nat, memMap: seq<nat>, role: map<nat, Role>, dir: map<Dir, nat>, pte: map<Loc, Pte>,
                f: nat, l: Loc, p: Pte)
    requires FramesOk(start, high, memMap, role, dir, pte) && f in role && role[f].Held?
    requires (l in pte ==> pte[l].Swapped?) && Maps(p, f)
    ensures memMap[f] == 1 && forall m | m in pte :: !Maps(pte[m], f)
    ensures FramesOk(start, high, memMap, role[f := Solo(l)], dir, pte[l := p])
  {
    assert forall m | m in pte :: Fits(m, pte[m], role) && Fits(m, pte[m], role[f := Solo(l)]);
    assert Refs(pte[l := p], f) == {l};
    forall g | g != f ensures Refs(pte[l := p], g) == Refs(pte, g) {}
  }

  /** An entry that maps `f` goes away or becomes a swap slot. */
  lemma UnmapFrame(start: nat, high: nat, memMap: seq<nat>, role: map<nat, Role>, dir: map<Dir, nat>,
                   pte: map<Loc, Pte>, l: Loc, pte': map<Loc, Pte>)
    requires FramesOk(start, high, memMap, role, dir, pte) && l in pte && pte[l].Present?
    requires pte' - {l} == pte - {l} && (l in pte' ==> pte'[l].Swapped?)
    ensures var f := pte[l].frame; f < |memMap| && memMap[f] > 0
    ensures var f := pte[l].frame;
            FramesOk(start, high, memMap[f := memMap[f] - 1], if memMap[f] == 1 then role - {f} else role, dir, pte')
  {
    var f := pte[l].frame;
    assert Fits(l, pte[l], role);
    RefsMinus(pte, pte', l, f);
    var role' := if memMap[f] == 1 then role - {f} else role;
    forall g | g != f ensures Refs(pte', g) == Refs(pte, g) { OnlyAt(pte, pte', l, g); }
    CountedStep(start, high, memMap, role, pte, f, memMap[f] - 1, role', pte');
    forall m | m in pte' ensures Fits(m, pte'[m], role') {
      if m != l {
        assert m in pte' - {l} && m in pte && (pte' - {l})[m] == (pte - {l})[m];
        assert Fits(m, pte[m], role);
        assert Maps(pte[m], f) ==> m in Refs(pte', f);
      }
    }
  }

  lemma RefsMinus(pte: map<Loc, Pte>, pte': map<Loc, Pte>, l: Loc, f: nat)
    requires pte' - {l} == pte - {l}
    requires l in pte && Maps(pte[l], f) && !(l in pte' && Maps(pte'[l], f))
    ensures Refs(pte, f) == Refs(pte', f) + {l} && l !in Refs(pte', f)
    ensures |Refs(pte, f)| == |Refs(pte', f)| + 1
  {
    assert forall m | m != l :: m in pte' - {l} <==> m in pte';
    assert forall m | m != l :: m in pte - {l} <==> m in pte;
    assert forall m | m in pte' && m != l :: (pte' - {l})[m] == pte'[m];
    assert forall m | m in pte && m != l :: (pte - {l})[m] == pte[m];
    assert Refs(pte, f) == Refs(pte', f) + {l};
  }

  lemma CountedStep(start: nat, high: nat, memMap: seq<nat>, role: map<nat, Role>, pte: map<Loc, Pte>,
                    f: nat, c: nat, role': map<nat, Role>, pte': map<Loc, Pte>)
    requires Counted(start, high, memMap, role, pte) && start <= f < high <= |memMap|
    requires c == if f in role' && (role'[f].Held? || role'[f].Table?) then 1 else |Refs(pte', f)|
    requires f in role' <==> c > 0
    requires role' - {f} == role - {f}
    requires forall g | g != f :: |Refs(pte', g)| == |Refs(pte, g)|
    ensures Counted(start, high, memMap[f := c], role', pte')
  {
    forall g | g != f ensures (g in role <==> g in role') && (g in role ==> role[g] == role'[g]) {
      assert g in role - {f} <==> g in role' - {f};
      if g in role { assert (role - {f})[g] == (role' - {f})[g]; }
    }
  }

  lemma OnlyAt(pte: map<Loc, Pte>, pte': map<Loc, Pte>, l: Loc, g: nat)
    requires pte' - {l} == pte - {l}
    requires (l in pte && Maps(pte[l], g)) <==> (l in pte' && Maps(pte'[l], g))
    ensures Refs(pte', g) == Refs(pte, g)
  {
    assert forall m | m != l :: m in pte' - {l} <==> m in pte';
    assert forall m | m != l :: m in pte - {l} <==> m in pte;
    assert forall m | m in pte' && m != l :: (pte' - {l})[m] == pte'[m];
    assert forall m | m in pte && m != l :: (pte - {l})[m] == pte[m];
  }

  /** One more read-only entry maps the frame of `from`, at the same offset. */
  lemma ShareFrame(start: nat, high: nat, memMap: seq<nat>, role: map<nat, Role>, dir: map<Dir, nat>,
                   pte: map<Loc, Pte>, from: Loc, to: Loc)
    requires FramesOk(start, high, memMap, role, dir, pte) && from in pte && pte[from].Present? && to !in pte
    requires from.d == to.d && from.e == to.e
    ensures pte[from].frame < |memMap|
    ensures var p := pte[from].(rw := false); var f := p.frame;
            FramesOk(start, high, memMap[f := memMap[f] + 1], role[f := Shared(to.d, to.e)], dir,
              pte[from := p][to := p])
  {
    var p := pte[from].(rw := false);
    var f, pte', role' := p.frame, pte[from := p][to := p], role[pte[from].frame := Shared(to.d, to.e)];
    assert Fits(from, pte[from], role);
    assert Refs(pte', f) == Refs(pte, f) + {to};
    forall g | g != f ensures Refs(pte', g) == Refs(pte, g) {}
    CountedStep(start, high, memMap, role, pte, f, memMap[f] + 1, role', pte');
    forall m | m in pte' ensures Fits(m, pte'[m], role') {
      if m != from && m != to { assert Fits(m, pte[m], role); }
    }
  }

  /** The last entry that maps a frame becomes writable. */
  lemma Claim(start: nat, high: nat, memMap: seq<nat>, role: map<nat, Role>, dir: map<Dir, nat>, pte: map<Loc, Pte>,
              l: Loc, p: Pte)
    requires FramesOk(start, high, memMap, role, dir, pte) && l in pte && pte[l].Present?
    requires p.Present? && p.frame == pte[l].frame < |memMap| && memMap[p.frame] == 1
    ensures FramesOk(start, high, memMap, role[p.frame := Solo(l)], dir, pte[l := p])
  {
    var f, role' := p.frame, role[p.frame := Solo(l)];
    assert Fits(l, pte[l], role);
    assert l in Refs(pte, f);
    assert Refs(pte, f) == {l} by {
      assert |Refs(pte, f) - {l}| == 0;
      assert Refs(pte, f) == Refs(pte, f) - {l} + {l};
    }
    forall g ensures Refs(pte[l := p], g) == Refs(pte, g) {}
    CountedStep(start, high, memMap, role, pte, f, 1, role', pte[l := p]);
    assert memMap[f := 1] == memMap;
    forall m | m in pte && m != l ensures Fits(m, pte[m], role') {
      assert Fits(m, pte[m], role) && m !in Refs(pte, f);
    }
  }

  /** Setting the dirty bit changes no use. */
  lemma SetDirty(start: nat, high: nat, memMap: seq<nat>, role: map<nat, Role>, dir: map<Dir, nat>,
                 pte: map<Loc, Pte>, l: Loc)
    requires FramesOk(start, high, memMap, role, dir, pte) && l in pte && pte[l].Present?
    ensures FramesOk(start, high, memMap, role, dir, pte[l := pte[l].(dirty := true)])
  {
    var p := pte[l].(dirty := true);
    assert Fits(l, pte[l], role);
    forall g ensures Refs(pte[l := p], g) == Refs(pte, g) {}
    assert forall m | m in pte && m != l :: Fits(m, pte[m], role);
  }

  /** The entry of a swapped-out page moves to another place. */
  lemma MoveEntry(start: nat, high: nat, memMap: seq<nat>, role: map<nat, Role>, dir: map<Dir, nat>,
                  pte: map<Loc, Pte>, from: Loc, to: Loc)
    requires FramesOk(start, high, memMap, role, dir, pte) && from in pte && pte[from].Swapped? && to !in pte
    ensures FramesOk(start, high, memMap, role, dir, (pte - {from})[to := pte[from]])
  {
    var pte' := (pte - {from})[to := pte[from]];
    forall g ensures Refs(pte', g) == Refs(pte, g) {}
    assert forall m | m in pte && m != from :: Fits(m, pte[m], role) && pte'[m] == pte[m];
  }

  lemma RemoveSwapped(start: nat, high: nat, memMap: seq<nat>, role: map<nat, Role>, dir: map<Dir, nat>,
                      pte: map<Loc, Pte>, l: Loc)
    requires FramesOk(start, high, memMap, role, dir, pte) && l in pte && pte[l].Swapped?
    ensures FramesOk(start, high, memMap, role, dir, pte - {l})
  {
    forall g ensures Refs(pte - {l}, g) == Refs(pte, g) {}
  }
}
