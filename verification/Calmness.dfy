/** What making room in memory may do: pages leave, but no task and no kernel code can tell. */
module Calmness {
  import opened Kernel
  import opened Paging
  import opened PagingSteps

  function HeldSet(s: Mm): set<nat> {
    set f | f in s.role && s.role[f].Held?
  }

  /** Entries are lost only by being swapped out or dropped. */
  predicate Lost(s: Mm, s': Mm) {
    && s'.pte.Keys <= s.pte.Keys
    && forall l | l in s.pte ::
         (l in s'.pte && s'.pte[l] == s.pte[l]) || (s.pte[l].Present? && (l in s'.pte ==> s'.pte[l].Swapped?))
  }

  /** What making room may do: pages leave memory, but no task and no kernel code can tell. */
  ghost predicate Calm(s: Mm, s': Mm) {
    && s'.prog == s.prog && s'.dir == s.dir && s'.files == s.files && s'.usable == s.usable
    && s'.start == s.start && s'.high == s.high && |s'.swapMap| == |s.swapMap|
    && SameSights(s, s')
    && Lost(s, s')
    && forall f | IsHeld(s, f) :: IsHeld(s', f) && At(s'.mem, f) == At(s.mem, f)
  }

  /** A page that can leave memory: clean, or mapped once and a swap slot is free. */
  ghost predicate Evictable(s: Mm, l: Loc) {
    && l in s.pte && s.pte[l].Present?
    && (s.pte[l].dirty ==> s.pte[l].frame < |s.memMap| && s.memMap[s.pte[l].frame] == 1 && FreeSlot(s.swapMap))
  }

  ghost predicate FreeSlot(swapMap: seq<bool>) {
    exists n :: 1 <= n < |swapMap| && swapMap[n]
  }

  function PresentSet(pte: map<Loc, Pte>): set<Loc> {
    set l | l in pte && pte[l].Present?
  }

  /** The page is in memory and was not written since it was loaded. */
  predicate CleanHere(pte: map<Loc, Pte>, l: Loc) {
    l in pte && pte[l].Present? && !pte[l].dirty
  }

  function CleanPages(pte: map<Loc, Pte>): set<Loc> {
    set l | l in pte && CleanHere(pte, l)
  }

  lemma CalmSelf(s: Mm)
    ensures Calm(s, s)
  {
  }

  lemma CalmTrans(s0: Mm, s1: Mm, s2: Mm)
    requires Calm(s0, s1) && Calm(s1, s2)
    ensures Calm(s0, s2)
  {
  }

  lemma CleanIsInitial(s: Mm, l: Loc)
    requires Inv(s) && l in s.pte && s.pte[l].Present? && !s.pte[l].dirty
    ensures Sees(s, l) == Initial(s.prog, s.files, l)
  {
  }

  /** The page at `l` has left memory, and no other entry has changed. */
  predicate WentOut(pte: map<Loc, Pte>, pte': map<Loc, Pte>, l: Loc) {
    l in pte && pte[l].Present? && pte' - {l} == pte - {l} && (l in pte' ==> pte'[l].Swapped?)
  }

  lemma OneLess(pte: map<Loc, Pte>, pte': map<Loc, Pte>, l: Loc)
    requires WentOut(pte, pte', l)
    ensures PresentSet(pte) == PresentSet(pte') + {l} && l !in PresentSet(pte')
    ensures |PresentSet(pte')| == |PresentSet(pte)| - 1
  {
    forall m | m != l ensures (m in pte <==> m in pte') && (m in pte ==> pte[m] == pte'[m]) {
      assert m in pte - {l} <==> m in pte' - {l};
      if m in pte { assert (pte - {l})[m] == (pte' - {l})[m]; }
    }
    assert PresentSet(pte) == PresentSet(pte') + {l};
  }

  lemma DropClean(s: Mm, l: Loc)
    requires Inv(s) && l in s.pte && s.pte[l].Present? && !s.pte[l].dirty
    ensures s.start <= s.pte[l].frame < s.high && s.pte[l].frame < |s.memMap| && s.memMap[s.pte[l].frame] != 0
    ensures var s' := Unmap(s, l); Inv(s') && Calm(s, s') && HeldSet(s') == HeldSet(s)
  {
    hide FramesOk, SwapOk, CleanOk, Located, Initial;
    EntryFacts(s, l);
    UnmapKeeps(s, l);
    CleanIsInitial(s, l);
  }

  lemma SwapOutDirty(s: Mm, l: Loc, n: nat)
    requires Inv(s) && l in s.pte && s.pte[l].Present?
    requires 0 < n < |s.swapMap| && s.swapMap[n]
    ensures s.start <= s.pte[l].frame < s.high && s.pte[l].frame < |s.memMap| && s.memMap[s.pte[l].frame] != 0
    ensures s.pte[l].frame in s.mem
    ensures var s' := SwapOut(s, l, n); Inv(s') && Calm(s, s') && HeldSet(s') == HeldSet(s)
  {
    hide FramesOk, SwapOk, CleanOk, Located, Initial;
    EntryFacts(s, l);
    SwapOutKeeps(s, l, n);
  }

  lemma TakeFrame(s: Mm, f: nat)
    requires Inv(s) && f < PAGING_PAGES && s.memMap[f] == 0
    ensures var s' := Alloc(s, f); Inv(s') && Calm(s, s')
    ensures f !in HeldSet(s) && HeldSet(Alloc(s, f)) == HeldSet(s) + {f}
  {
    hide FramesOk, SwapOk, CleanOk, Located, Initial;
    AllocKeeps(s, f);
  }

  // ---------------------------------------------------------------- page faults

  /** No task and no kernel code can tell the difference. */
  ghost predicate Quiet(s: Mm, s': Mm) {
    && s'.prog == s.prog && s'.files == s.files && s'.usable == s.usable
    && s'.start == s.start && s'.high == s.high && |s'.swapMap| == |s.swapMap|
    && SameSights(s, s')
    && forall f | IsHeld(s, f) :: IsHeld(s', f) && At(s'.mem, f) == At(s.mem, f)
  }

  lemma CalmIsQuiet(s: Mm, s': Mm)
    requires Calm(s, s')
    ensures Quiet(s, s')
  {
  }

  lemma QuietTrans(s0: Mm, s1: Mm, s2: Mm)
    requires Quiet(s0, s1) && Quiet(s1, s2)
    ensures Quiet(s0, s2)
  {
  }

  /** `f` stops being kernel-owned; every other kernel-owned frame keeps its bytes. */
  ghost predicate GivesUp(s: Mm, s': Mm, f: nat) {
    && s'.prog == s.prog && s'.files == s.files && s'.usable == s.usable
    && s'.start == s.start && s'.high == s.high && |s'.swapMap| == |s.swapMap|
    && HeldSet(s') == HeldSet(s) - {f}
    && forall g | IsHeld(s, g) && g != f :: At(s'.mem, g) == At(s.mem, g)
  }

  /** Taking a frame and giving it up again leaves no trace. */
  lemma TakeAndGive(s0: Mm, s1: Mm, s2: Mm, f: nat)
    requires Quiet(s0, s1) && f !in HeldSet(s0) && HeldSet(s1) == HeldSet(s0) + {f}
    requires GivesUp(s1, s2, f) && SameSights(s1, s2)
    ensures Quiet(s0, s2) && HeldSet(s2) == HeldSet(s0)
  {
    hide Sees;
    assert forall g | IsHeld(s0, g) :: g in HeldSet(s0) && g in HeldSet(s2);
  }

  lemma GiveTable(s: Mm, k: Dir, f: nat)
    requires Inv(s) && IsHeld(s, f) && k !in s.dir && k.t in s.prog && k.d < TASK_DIRS
    ensures var s' := AddTable(s, k, f); Inv(s') && SameSights(s, s') && GivesUp(s, s', f)
  {
    hide FramesOk, SwapOk, CleanOk, Located, Initial;
    AddTableKeeps(s, k, f);
  }

  lemma GiveBack(s: Mm, f: nat)
    requires Inv(s) && IsHeld(s, f)
    ensures f < s.high && f < |s.memMap| && s.memMap[f] == 1
    ensures var s' := Release(s, f); Inv(s') && SameSights(s, s') && GivesUp(s, s', f)
  {
    hide FramesOk, SwapOk, CleanOk, Located, Initial;
    HeldFacts(s, f);
    FreeHeldKeeps(s, f);
  }

  lemma HeldFacts(s: Mm, f: nat)
    requires Inv(s) && IsHeld(s, f)
    ensures s.start <= f < s.high && f in s.mem && |s.mem[f]| == PAGE_SIZE && s.memMap[f] == 1
    ensures forall l | l in s.pte :: !Maps(s.pte[l], f)
  {
  }

  lemma GivePage(s: Mm, l: Loc, f: nat, dirty: bool)
    requires Inv(s) && IsHeld(s, f) && Place(s, l) && l !in s.pte
    requires dirty || At(s.mem, f) == Initial(s.prog, s.files, l)
    ensures var s' := Map(s, l, f, dirty);
            Inv(s') && GivesUp(s, s', f) && SameElsewhere(s, s', l) && Sees(s', l) == At(s.mem, f)
            && (At(s.mem, f) == Initial(s.prog, s.files, l) ==> SameSights(s, s'))
  {
    hide FramesOk, SwapOk, CleanOk, Located, Initial;
    MapKeeps(s, l, f, dirty);
  }

  /** A frame that the kernel does not own cannot become a page: it is free, a page table, or somebody's page
      already. */
  lemma MapUnheld(s: Mm, l: Loc, f: nat, dirty: bool)
    requires Inv(s) && l !in s.pte && !IsHeld(s, f)
    ensures !Inv(s.(pte := s.pte[l := Present(f, true, dirty)]))
  {
    hide Shape, Located, SwapOk, CleanOk, Sees;
    var s' := s.(pte := s.pte[l := Present(f, true, dirty)]);
    assert f in s.role && f < |s.memMap| && s.memMap[f] > 0 ==>
             IsHeld(s, f) || s.role[f].Table? || Refs(s.pte, f) != {};
    assert Inv(s') ==> Fits(l, s'.pte[l], s'.role);
  }

  lemma GiveSwapIn(s: Mm, l: Loc, f: nat)
    requires Inv(s) && IsHeld(s, f) && l in s.pte && s.pte[l].Swapped?
    ensures s.pte[l].slot in s.swap && 0 < s.pte[l].slot < |s.swapMap|
    ensures var s' := SwapIn(s, l, f); Inv(s') && SameSights(s, s') && GivesUp(s, s', f)
  {
    hide FramesOk, SwapOk, CleanOk, Located, Initial;
    EntryFacts(s, l);
    SwapInKeeps(s, l, f);
  }

  lemma GiveCopy(s: Mm, l: Loc, f: nat)
    requires Inv(s) && IsHeld(s, f) && l in s.pte && s.pte[l].Present?
    ensures var g := s.pte[l].frame;
            g < s.high && g < |s.memMap| && s.memMap[g] != 0 && g in s.mem && g != f
    ensures var s' := CopyOnWrite(s, l, f); Inv(s') && SameSights(s, s') && GivesUp(s, s', f)
  {
    hide FramesOk, SwapOk, CleanOk, Located, Initial;
    EntryFacts(s, l);
    CopyOnWriteKeeps(s, l, f);
  }

  lemma GiveSplit(s: Mm, from: Loc, to: Loc, f: nat)
    requires Inv(s) && IsHeld(s, f) && from in s.pte && s.pte[from].Swapped? && to !in s.pte && Place(s, to)
    ensures s.pte[from].slot in s.swap
    ensures var s' := SplitSlot(s, from, to, f);
            Inv(s') && SameElsewhere(s, s', to) && Sees(s', to) == Sees(s, from) && GivesUp(s, s', f)
  {
    hide FramesOk, SwapOk, CleanOk, Located, Initial;
    EntryFacts(s, from);
    SplitSlotKeeps(s, from, to, f);
  }

  lemma UnprotectQuiet(s: Mm, l: Loc)
    requires Inv(s) && l in s.pte && s.pte[l].Present?
    requires s.pte[l].frame < PAGING_PAGES && s.memMap[s.pte[l].frame] == 1
    ensures var s' := Unprotect(s, l); Inv(s') && Quiet(s, s') && HeldSet(s') == HeldSet(s)
  {
    hide FramesOk, SwapOk, CleanOk, Located, Initial;
    EntryFacts(s, l);
    UnprotectKeeps(s, l);
  }

  /** Tasks that run one executable, or use one library, start from the same page. */
  lemma SameImage(files: Files, p: Prog, q: Prog, d: nat, e: nat)
    requires FilesOk(files)
    requires if Offset(d, e) < LIBRARY_OFFSET then p.executable == q.executable else p.library == q.library
    ensures Image(files, p, d, e) == Image(files, q, d, e)
  {
  }

  /** The pages at the offset of `l` in task `t` and in the task of `l` start from different bytes. */
  predicate Stale(prog: map<nat, Prog>, files: Files, l: Loc, t: nat) {
    Initial(prog, files, Loc(t, l.d, l.e)) != Initial(prog, files, l)
  }

  /** Sharing a clean page is right if and only if both pages start from the same bytes; nothing else is touched. */
  lemma ShareExact(s: Mm, from: Loc, l: Loc)
    requires Inv(s) && CleanHere(s.pte, from) && from.t in s.prog && from == Loc(from.t, l.d, l.e)
    requires l !in s.pte && Place(s, l) && l.t in s.prog
    ensures s.pte[from].frame < |s.memMap| && s.pte[from].frame in s.mem
    ensures var s' := Share(s, from, l);
            && HeldSet(s') == HeldSet(s) && PresentSet(s'.pte) == PresentSet(s.pte) + {l}
            && CleanPages(s'.pte) <= CleanPages(s.pte) + {l}
            && (if Stale(s.prog, s.files, l, from.t) then !Inv(s') && Strayed(s, s', l)
                else Inv(s') && Quiet(s, s'))
  {
    hide FramesOk, SwapOk, CleanOk, Located, Initial;
    EntryFacts(s, from);
    CleanIsInitial(s, from);
    ShareSights(s, from, l);
    if Stale(s.prog, s.files, l, from.t) {
      ShareWrong(s, from, l);
    } else {
      ShareKeeps(s, from, l);
    }
  }

  /** One page of one task shows other bytes, and nothing else has changed for anybody. */
  ghost predicate Strayed(s: Mm, s': Mm, l: Loc) {
    s'.prog == s.prog && s'.files == s.files && SameElsewhere(s, s', l) && Sees(s', l) != Sees(s, l)
  }

  lemma ShareSights(s: Mm, from: Loc, l: Loc)
    requires CleanHere(s.pte, from) && l !in s.pte && s.pte[from].frame < |s.memMap| && !IsHeld(s, s.pte[from].frame)
    ensures var s' := Share(s, from, l);
            SameElsewhere(s, s', l) && Sees(s', l) == Sees(s, from) && HeldSet(s') == HeldSet(s)
            && PresentSet(s'.pte) == PresentSet(s.pte) + {l} && CleanPages(s'.pte) <= CleanPages(s.pte) + {l}
  {
    hide Initial;
  }

  lemma ShareWrong(s: Mm, from: Loc, l: Loc)
    requires Inv(s) && CleanHere(s.pte, from) && l !in s.pte && s.pte[from].frame < |s.memMap|
    requires At(s.mem, s.pte[from].frame) != Initial(s.prog, s.files, l)
    ensures !Inv(Share(s, from, l))
  {
    hide FramesOk, SwapOk, Located, Initial, Shape;
    var s' := Share(s, from, l);
    assert !Fresh(l, s'.pte[l], s'.mem, s'.prog, s'.files);
  }

  lemma LostSelf(s: Mm)
    ensures Lost(s, s)
  {
  }

  lemma CalmFacts(s: Mm, s': Mm)
    requires Calm(s, s')
    ensures s'.prog == s.prog && s'.dir == s.dir && s'.files == s.files && Lost(s, s')
    ensures CleanPages(s'.pte) <= CleanPages(s.pte)
  {
  }

  lemma QuietHeld(s: Mm, s': Mm, f: nat)
    requires Quiet(s, s') && IsHeld(s, f)
    ensures IsHeld(s', f) && At(s'.mem, f) == At(s.mem, f)
    ensures s'.prog == s.prog && s'.files == s.files
  {
  }

  lemma GiveAfter(s0: Mm, s1: Mm, s2: Mm, f: nat, l: Loc)
    requires Quiet(s0, s1) && HeldSet(s1) == HeldSet(s0) && GivesUp(s1, s2, f) && SameElsewhere(s1, s2, l)
    ensures GivesUp(s0, s2, f) && SameElsewhere(s0, s2, l)
  {
  }

  lemma SightsWithin(s: Mm, s': Mm, l: Loc, f: nat)
    requires Inv(s) && l !in s.pte && At(s.mem, f) == Initial(s.prog, s.files, l)
    requires SameElsewhere(s, s', l) && Sees(s', l) == At(s.mem, f)
    ensures SameSights(s, s')
  {
  }

  /** The order in which un_wp_page makes its changes does not matter. */
  lemma CopyView(s: Mm, l: Loc, f: nat)
    requires l in s.pte && s.pte[l].Present? && s.pte[l].frame in s.mem && s.pte[l].frame != f
    requires s.pte[l].frame < |s.memMap| && s.memMap[s.pte[l].frame] != 0
    ensures var s1 := s.(mem := s.mem[f := s.mem[s.pte[l].frame]],
                         pte := s.pte[l := Present(f, true, s.pte[l].dirty)], role := s.role[f := Solo(l)]);
            Release(s1, s.pte[l].frame) == CopyOnWrite(s, l, f)
  {
    var g, p := s.pte[l].frame, Present(f, true, s.pte[l].dirty);
    assert (s.pte - {l})[l := p] == s.pte[l := p];
    assert s.role[f := Solo(l)] - {g} == (s.role - {g})[f := Solo(l)];
  }

  lemma QuietSelf(s: Mm)
    ensures Quiet(s, s)
  {
  }

  lemma QuietFacts(s: Mm, s': Mm)
    requires Quiet(s, s')
    ensures s'.prog == s.prog && s'.files == s.files && s'.high == s.high && s'.start == s.start
  {
  }

  lemma NoTableNoEntry(s: Mm, l: Loc)
    requires Inv(s) && Dir(l.t, l.d) !in s.dir
    ensures l !in s.pte
  {
  }

  lemma NoInodeNoBytes(files: Files, p: Prog, d: nat, e: nat)
    requires Source(files, p, Offset(d, e)).0 == 0
    ensures Image(files, p, d, e) == Zeros(PAGE_SIZE)
  {
  }

  lemma FillQuiet(s0: Mm, s: Mm, f: nat, page: Page)
    requires Inv(s) && Quiet(s0, s) && f !in HeldSet(s0) && IsHeld(s, f) && |page| == PAGE_SIZE
    ensures var s' := Fill(s, f, page); Inv(s') && Quiet(s0, s') && HeldSet(s') == HeldSet(s) && IsHeld(s', f)
  {
    hide FramesOk, SwapOk, CleanOk, Located, Initial;
    FillKeeps(s, f, page);
  }
}
