/** The atomic changes the kernel makes to the paging state, each shown to keep the invariant
    and to leave what every other page of every task shows untouched. */
module PagingSteps {
  import opened Kernel
  import opened Paging
  import F = FrameUse
  import S = SwapUse

  ghost predicate SameElsewhere(s: Mm, s': Mm, l: Loc) {
    forall m: Loc | m != l :: Sees(s', m) == Sees(s, m)
  }

  ghost predicate SameSights(s: Mm, s': Mm) {
    forall m: Loc :: Sees(s', m) == Sees(s, m)
  }

  predicate IsHeld(s: Mm, f: nat) { f in s.role && s.role[f].Held? }

  /** The page table for `l` exists. */
  predicate Place(s: Mm, l: Loc) { Dir(l.t, l.d) in s.dir && l.e < 1024 }

  /** free_page: one owner less, and no use left when it was the last. */
  function Release(s: Mm, f: nat): Mm
    requires f < |s.memMap| && s.memMap[f] != 0
  {
    s.(memMap := s.memMap[f := s.memMap[f] - 1],
       role := if s.memMap[f] == 1 then s.role - {f} else s.role)
  }

  /** What the invariant says of one entry. */
  lemma EntryFacts(s: Mm, l: Loc)
    requires Inv(s) && l in s.pte
    ensures Place(s, l) && l.t in s.prog
    ensures match s.pte[l]
            case Swapped(n) => 0 < n < |s.swapMap| && !s.swapMap[n] && |At(s.swap, n)| == PAGE_SIZE
            case Present(f, _, _) =>
              s.start <= f < s.high && !IsHeld(s, f) && f in s.mem && |s.mem[f]| == PAGE_SIZE
  {
  }

  lemma TableFacts(s: Mm, k: Dir)
    requires Inv(s) && k in s.dir
    ensures s.start <= s.dir[k] < s.high && k.t in s.prog
  {
  }

  // ---------------------------------------------------------------- kernel-owned frames

  /** get_free_page, once a frame with count 0 is found. */
  function Alloc(s: Mm, f: nat): Mm
    requires f < |s.memMap|
  {
    s.(memMap := s.memMap[f := 1], mem := s.mem[f := Zeros(PAGE_SIZE)], role := s.role[f := Held])
  }

  lemma AllocKeeps(s: Mm, f: nat)
    requires Inv(s) && f < PAGING_PAGES && s.memMap[f] == 0
    ensures Inv(Alloc(s, f)) && SameSights(s, Alloc(s, f))
    ensures f !in s.role
  {
    hide FramesOk, SwapOk, CleanOk, Located, Initial;
    F.Take(s.start, s.high, s.memMap, s.role, s.dir, s.pte, f);
    FreshElsewhere(s, f, Zeros(PAGE_SIZE));
  }

  /** Rewriting a frame nobody maps leaves clean pages clean. */
  lemma FreshElsewhere(s: Mm, f: nat, page: Page)
    requires CleanOk(s.pte, s.mem, s.prog, s.files)
    requires forall l | l in s.pte :: !Maps(s.pte[l], f)
    ensures CleanOk(s.pte, s.mem[f := page], s.prog, s.files)
  {
  }

  lemma FreeHeldKeeps(s: Mm, f: nat)
    requires Inv(s) && IsHeld(s, f)
    ensures s.memMap[f] == 1
    ensures Inv(Release(s, f)) && SameSights(s, Release(s, f))
  {
    hide FramesOk, SwapOk, CleanOk, Located, Initial;
    F.Drop(s.start, s.high, s.memMap, s.role, s.dir, s.pte, f);
  }

  /** Kernel code writes a page it owns. */
  function Fill(s: Mm, f: nat, page: Page): Mm {
    s.(mem := s.mem[f := page])
  }

  lemma FillKeeps(s: Mm, f: nat, page: Page)
    requires Inv(s) && IsHeld(s, f) && |page| == PAGE_SIZE
    ensures Inv(Fill(s, f, page)) && SameSights(s, Fill(s, f, page))
  {
    hide FramesOk, SwapOk, CleanOk, Located, Initial;
    F.Drop(s.start, s.high, s.memMap, s.role, s.dir, s.pte, f);
    FreshElsewhere(s, f, page);
  }

  // ---------------------------------------------------------------- page tables

  /** A zeroed kernel-owned frame becomes the page table of directory entry `k`. */
  function AddTable(s: Mm, k: Dir, f: nat): Mm {
    s.(dir := s.dir[k := f], role := s.role[f := Table(k)])
  }

  lemma AddTableKeeps(s: Mm, k: Dir, f: nat)
    requires Inv(s) && IsHeld(s, f) && k !in s.dir && k.t in s.prog && k.d < TASK_DIRS
    ensures Inv(AddTable(s, k, f)) && SameSights(s, AddTable(s, k, f))
  {
    hide FramesOk, SwapOk, CleanOk, Initial;
    F.MakeTable(s.start, s.high, s.memMap, s.role, s.dir, s.pte, f, k);
  }

  /** An empty page table goes away together with its directory entry. */
  function DropTable(s: Mm, k: Dir): Mm
    requires k in s.dir && s.dir[k] < |s.memMap| && s.memMap[s.dir[k]] != 0
  {
    Release(s.(dir := s.dir - {k}), s.dir[k])
  }

  lemma DropTableKeeps(s: Mm, k: Dir)
    requires Inv(s) && k in s.dir
    requires forall l | l in s.pte :: Dir(l.t, l.d) != k
    ensures s.dir[k] < |s.memMap| && s.memMap[s.dir[k]] == 1
    ensures Inv(DropTable(s, k)) && SameSights(s, DropTable(s, k))
  {
    hide FramesOk, SwapOk, CleanOk, Initial;
    TableFacts(s, k);
    F.DropTable(s.start, s.high, s.memMap, s.role, s.dir, s.pte, k);
    assert Located(s.dir - {k}, s.pte, s.prog);
  }

  // ---------------------------------------------------------------- page-table entries

  /** put_page, put_dirty_page: a kernel-owned frame is mapped at an empty entry, writable. */
  function Map(s: Mm, l: Loc, f: nat, dirty: bool): Mm {
    s.(pte := s.pte[l := Present(f, true, dirty)], role := s.role[f := Solo(l)])
  }

  lemma MapKeeps(s: Mm, l: Loc, f: nat, dirty: bool)
    requires Inv(s) && IsHeld(s, f) && Place(s, l) && l !in s.pte
    requires dirty || At(s.mem, f) == Initial(s.prog, s.files, l)
    ensures var s' := Map(s, l, f, dirty);
            Inv(s') && SameElsewhere(s, s', l) && Sees(s', l) == At(s.mem, f)
  {
    hide FramesOk, SwapOk, CleanOk, Initial;
    var p := Present(f, true, dirty);
    F.MapHeld(s.start, s.high, s.memMap, s.role, s.dir, s.pte, f, l, p);
    S.Unrelated(s.swapMap, s.swap, s.usable, s.slotOf, s.pte, s.pte[l := p]);
    CleanSet(s, l, p);
  }

  lemma CleanSet(s: Mm, l: Loc, p: Pte)
    requires CleanOk(s.pte, s.mem, s.prog, s.files) && Fresh(l, p, s.mem, s.prog, s.files)
    ensures CleanOk(s.pte[l := p], s.mem, s.prog, s.files)
  {
  }

  lemma CleanMinus(s: Mm, l: Loc)
    requires CleanOk(s.pte, s.mem, s.prog, s.files)
    ensures CleanOk(s.pte - {l}, s.mem, s.prog, s.files)
  {
  }

  /** Removing an entry: a frame loses an owner, or a swap slot becomes free. */
  function Unmap(s: Mm, l: Loc): Mm
    requires l in s.pte
    requires match s.pte[l]
             case Swapped(n) => n < |s.swapMap|
             case Present(f, _, _) => f < |s.memMap| && s.memMap[f] != 0
  {
    var s0 := s.(pte := s.pte - {l});
    match s.pte[l]
    case Swapped(n) => s0.(swapMap := s.swapMap[n := true], slotOf := s.slotOf - {n})
    case Present(f, _, _) => Release(s0, f)
  }

  lemma UnmapKeeps(s: Mm, l: Loc)
    requires Inv(s) && l in s.pte
    ensures match s.pte[l]
            case Swapped(n) => 0 < n < |s.swapMap| && !s.swapMap[n]
            case Present(f, _, _) => s.start <= f < s.high && s.memMap[f] != 0
    ensures Inv(Unmap(s, l)) && SameElsewhere(s, Unmap(s, l), l)
  {
    hide FramesOk, SwapOk, CleanOk, Initial;
    EntryFacts(s, l);
    var pte' := s.pte - {l};
    CleanMinus(s, l);
    match s.pte[l]
    case Swapped(n) =>
      S.Free(s.swapMap, s.swap, s.usable, s.slotOf, s.pte, pte', l);
      F.RemoveSwapped(s.start, s.high, s.memMap, s.role, s.dir, s.pte, l);
    case Present(f, _, _) =>
      F.UnmapFrame(s.start, s.high, s.memMap, s.role, s.dir, s.pte, l, pte');
      S.Unrelated(s.swapMap, s.swap, s.usable, s.slotOf, s.pte, pte');
  }

  /** Swapping out the dirty page of `l`. */
  function SwapOut(s: Mm, l: Loc, n: nat): Mm
    requires l in s.pte && s.pte[l].Present? && n < |s.swapMap|
    requires s.pte[l].frame < |s.memMap| && s.memMap[s.pte[l].frame] != 0
  {
    var f := s.pte[l].frame;
    Release(s.(pte := s.pte[l := Swapped(n)], swapMap := s.swapMap[n := false],
               swap := s.swap[n := At(s.mem, f)], slotOf := s.slotOf[n := l]), f)
  }

  lemma SwapOutKeeps(s: Mm, l: Loc, n: nat)
    requires Inv(s) && l in s.pte && s.pte[l].Present?
    requires 0 < n < |s.swapMap| && s.swapMap[n]
    ensures s.pte[l].frame < |s.memMap| && s.memMap[s.pte[l].frame] != 0
    ensures Inv(SwapOut(s, l, n)) && SameSights(s, SwapOut(s, l, n))
  {
    hide FramesOk, SwapOk, CleanOk, Initial;
    EntryFacts(s, l);
    var pte' := s.pte[l := Swapped(n)];
    assert pte' - {l} == s.pte - {l};
    F.UnmapFrame(s.start, s.high, s.memMap, s.role, s.dir, s.pte, l, pte');
    S.Take(s.swapMap, s.swap, s.usable, s.slotOf, s.pte, l, n, At(s.mem, s.pte[l].frame));
    CleanSet(s, l, Swapped(n));
  }

  /** swap_in: the page comes back in a kernel-owned frame, its slot becomes free. */
  function SwapIn(s: Mm, l: Loc, f: nat): Mm
    requires l in s.pte && s.pte[l].Swapped? && s.pte[l].slot < |s.swapMap|
  {
    var n := s.pte[l].slot;
    s.(pte := s.pte[l := Present(f, true, true)], role := s.role[f := Solo(l)],
       swapMap := s.swapMap[n := true], slotOf := s.slotOf - {n}, mem := s.mem[f := At(s.swap, n)])
  }

  /** Swapping a page out and in again gives the task its bytes back. */
  lemma SwapInKeeps(s: Mm, l: Loc, f: nat)
    requires Inv(s) && IsHeld(s, f) && l in s.pte && s.pte[l].Swapped?
    ensures 0 < s.pte[l].slot < |s.swapMap| && !s.swapMap[s.pte[l].slot]
    ensures Inv(SwapIn(s, l, f)) && SameSights(s, SwapIn(s, l, f))
  {
    hide FramesOk, SwapOk, CleanOk, Located, Initial;
    EntryFacts(s, l);
    UnmapKeeps(s, l);
    var page := At(s.swap, s.pte[l].slot);
    var s1 := Unmap(s, l);
    FillKeeps(s1, f, page);
    var s2 := Fill(s1, f, page);
    MapKeeps(s2, l, f, true);
    assert Map(s2, l, f, true) == SwapIn(s, l, f) by {
      assert s2.pte[l := Present(f, true, true)] == s.pte[l := Present(f, true, true)];
    }
  }

  /** Two entries at the same offset come to share the frame of `from`, both read-only. */
  function Share(s: Mm, from: Loc, to: Loc): Mm
    requires from in s.pte && s.pte[from].Present? && s.pte[from].frame < |s.memMap|
  {
    var p := s.pte[from].(rw := false);
    s.(pte := s.pte[from := p][to := p], memMap := s.memMap[p.frame := s.memMap[p.frame] + 1],
       role := s.role[p.frame := Shared(to.d, to.e)])
  }

  lemma ShareKeeps(s: Mm, from: Loc, to: Loc)
    requires Inv(s) && from in s.pte && s.pte[from].Present?
    requires to !in s.pte && Place(s, to) && to.d == from.d && to.e == from.e
    requires s.pte[from].dirty || Initial(s.prog, s.files, to) == Initial(s.prog, s.files, from)
    ensures s.pte[from].frame < |s.memMap|
    ensures var s' := Share(s, from, to);
            Inv(s') && SameElsewhere(s, s', to) && Sees(s', to) == Sees(s, from)
  {
    hide FramesOk, SwapOk, Image;
    var p := s.pte[from].(rw := false);
    F.ShareFrame(s.start, s.high, s.memMap, s.role, s.dir, s.pte, from, to);
    S.Unrelated(s.swapMap, s.swap, s.usable, s.slotOf, s.pte, s.pte[from := p][to := p]);
    assert Fresh(from, s.pte[from], s.mem, s.prog, s.files);
    assert CleanOk(s.pte[from := p][to := p], s.mem, s.prog, s.files);
  }

  /** Fork of a swapped-out page: the child's entry takes over the slot, the parent's is emptied. */
  function MoveSlot(s: Mm, from: Loc, to: Loc): Mm
    requires from in s.pte && s.pte[from].Swapped?
  {
    s.(pte := (s.pte - {from})[to := s.pte[from]], slotOf := s.slotOf[s.pte[from].slot := to])
  }

  lemma MoveSlotKeeps(s: Mm, from: Loc, to: Loc)
    requires Inv(s) && from in s.pte && s.pte[from].Swapped? && to !in s.pte && Place(s, to)
    ensures var s' := MoveSlot(s, from, to);
            Inv(s') && Sees(s', to) == Sees(s, from)
            && (forall m | m != from && m != to :: Sees(s', m) == Sees(s, m))
  {
    hide FramesOk, SwapOk, Image;
    F.MoveEntry(s.start, s.high, s.memMap, s.role, s.dir, s.pte, from, to);
    S.Move(s.swapMap, s.swap, s.usable, s.slotOf, s.pte, from, to);
    assert CleanOk((s.pte - {from})[to := s.pte[from]], s.mem, s.prog, s.files);
  }

  /** Fork of a swapped-out page: the parent gets the frame the page was read into. */
  function SplitSlot(s: Mm, from: Loc, to: Loc, f: nat): Mm
    requires from in s.pte && s.pte[from].Swapped?
  {
    Map(Fill(MoveSlot(s, from, to), f, At(s.swap, s.pte[from].slot)), from, f, true)
  }

  lemma SplitSlotKeeps(s: Mm, from: Loc, to: Loc, f: nat)
    requires Inv(s) && IsHeld(s, f) && from in s.pte && s.pte[from].Swapped? && to !in s.pte && Place(s, to)
    ensures var s' := SplitSlot(s, from, to, f);
            Inv(s') && SameElsewhere(s, s', to) && Sees(s', to) == Sees(s, from)
  {
    hide FramesOk, SwapOk, CleanOk, Located, Initial;
    EntryFacts(s, from);
    MoveSlotKeeps(s, from, to);
    var s1 := MoveSlot(s, from, to);
    var page := At(s.swap, s.pte[from].slot);
    FillKeeps(s1, f, page);
    MapKeeps(Fill(s1, f, page), from, f, true);
  }

  /** un_wp_page when nobody else maps the frame. */
  function Unprotect(s: Mm, l: Loc): Mm
    requires l in s.pte && s.pte[l].Present?
  {
    s.(pte := s.pte[l := s.pte[l].(rw := true)], role := s.role[s.pte[l].frame := Solo(l)])
  }

  lemma UnprotectKeeps(s: Mm, l: Loc)
    requires Inv(s) && l in s.pte && s.pte[l].Present?
    requires s.pte[l].frame < PAGING_PAGES && s.memMap[s.pte[l].frame] == 1
    ensures Inv(Unprotect(s, l)) && SameSights(s, Unprotect(s, l))
  {
    hide FramesOk, SwapOk, Initial;
    EntryFacts(s, l);
    var p := s.pte[l].(rw := true);
    F.Claim(s.start, s.high, s.memMap, s.role, s.dir, s.pte, l, p);
    S.Unrelated(s.swapMap, s.swap, s.usable, s.slotOf, s.pte, s.pte[l := p]);
    assert Fresh(l, s.pte[l], s.mem, s.prog, s.files);
    CleanSet(s, l, p);
  }

  /** un_wp_page when others map the frame: `l` gets the copy made in frame `f`. */
  function CopyOnWrite(s: Mm, l: Loc, f: nat): Mm
    requires l in s.pte && s.pte[l].Present? && s.pte[l].frame < |s.memMap| && s.memMap[s.pte[l].frame] != 0
  {
    Map(Fill(Unmap(s, l), f, At(s.mem, s.pte[l].frame)), l, f, s.pte[l].dirty)
  }

  lemma CopyOnWriteKeeps(s: Mm, l: Loc, f: nat)
    requires Inv(s) && l in s.pte && s.pte[l].Present? && IsHeld(s, f)
    ensures s.pte[l].frame < |s.memMap| && s.memMap[s.pte[l].frame] != 0
    ensures Inv(CopyOnWrite(s, l, f)) && SameSights(s, CopyOnWrite(s, l, f))
  {
    hide FramesOk, SwapOk, Located, Initial;
    EntryFacts(s, l);
    UnmapKeeps(s, l);
    var s1, page := Unmap(s, l), At(s.mem, s.pte[l].frame);
    assert Fresh(l, s.pte[l], s.mem, s.prog, s.files);
    FillKeeps(s1, f, page);
    MapKeeps(Fill(s1, f, page), l, f, s.pte[l].dirty);
  }

  /** A user store through a writable entry; the processor sets the dirty bit. */
  function Store(s: Mm, l: Loc, i: nat, b: Byte): Mm
    requires l in s.pte && s.pte[l].Present? && i < |At(s.mem, s.pte[l].frame)|
  {
    var p := s.pte[l];
    s.(pte := s.pte[l := p.(dirty := true)], mem := s.mem[p.frame := At(s.mem, p.frame)[i := b]])
  }

  /** A writable entry is the only one that maps its frame. */
  lemma Alone(s: Mm, l: Loc)
    requires Inv(s) && l in s.pte && s.pte[l].Present? && s.pte[l].rw
    ensures forall m | m in s.pte && m != l :: !Maps(s.pte[m], s.pte[l].frame)
  {
  }

  /** A store through a writable entry changes one byte of one page of one task. */
  lemma StoreKeeps(s: Mm, l: Loc, i: nat, b: Byte)
    requires Inv(s) && l in s.pte && s.pte[l].Present? && s.pte[l].rw && i < PAGE_SIZE
    ensures |At(s.mem, s.pte[l].frame)| == PAGE_SIZE
    ensures var s' := Store(s, l, i, b);
            Inv(s') && SameElsewhere(s, s', l) && Sees(s', l) == Sees(s, l)[i := b]
  {
    hide FramesOk, SwapOk, Initial;
    EntryFacts(s, l);
    Alone(s, l);
    var p := s.pte[l];
    var f, p' := p.frame, p.(dirty := true);
    F.SetDirty(s.start, s.high, s.memMap, s.role, s.dir, s.pte, l);
    S.Unrelated(s.swapMap, s.swap, s.usable, s.slotOf, s.pte, s.pte[l := p']);
    assert forall m | m in s.pte && m != l :: Fresh(m, s.pte[m], s.mem, s.prog, s.files);
    assert CleanOk(s.pte[l := p'], s.mem[f := At(s.mem, f)[i := b]], s.prog, s.files);
  }

  // ---------------------------------------------------------------- tasks

  /** A task is created, or changes its executable, while it maps nothing. */
  lemma ProgKeeps(s: Mm, t: nat, p: Prog)
    requires Inv(s) && 1 <= t < NR_TASKS
    requires forall l | l in s.pte :: l.t != t
    ensures Inv(s.(prog := s.prog[t := p]))
  {
  }

  lemma ExitKeeps(s: Mm, t: nat)
    requires Inv(s) && forall k | k in s.dir :: k.t != t
    ensures Inv(s.(prog := s.prog - {t}))
  {
    hide FramesOk, SwapOk, Image;
    assert forall l | l in s.pte :: Dir(l.t, l.d) in s.dir && Fresh(l, s.pte[l], s.mem, s.prog, s.files);
  }
}
