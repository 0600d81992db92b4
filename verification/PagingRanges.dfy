/** Releasing and copying whole ranges of page tables, entry by entry: what holds when the loops of
    free_page_tables and copy_page_tables have come as far as entry `e` of directory entry `d`. */
module PagingRanges {
  import opened Paging
  import opened PagingSteps
  import opened Calmness

  predicate Before(l: Loc, d: nat, e: nat) {
    l.d < d || (l.d == d && l.e < e)
  }

  ghost predicate SameSetting(s: Mm, s': Mm) {
    && s'.prog == s.prog && s'.files == s.files && s'.usable == s.usable
    && s'.start == s.start && s'.high == s.high && |s'.swapMap| == |s.swapMap|
    && HeldSet(s') == HeldSet(s)
    && forall f | IsHeld(s, f) :: At(s'.mem, f) == At(s.mem, f)
  }

  // ---------------------------------------------------------------- free_page_tables

  predicate Gone(l: Loc, t: nat, lo: nat, d: nat, e: nat) {
    l.t == t && lo <= l.d && Before(l, d, e)
  }

  /** Task `t` has lost its entries and tables from directory entry `lo` on, up to (d, e). */
  ghost predicate Cleared(s: Mm, s': Mm, t: nat, lo: nat, d: nat, e: nat) {
    && SameSetting(s, s')
    && (forall l | l in s'.pte :: l in s.pte && s'.pte[l] == s.pte[l] && !Gone(l, t, lo, d, e))
    && (forall l | l in s.pte && !Gone(l, t, lo, d, e) :: l in s'.pte)
    && (forall k | k in s'.dir :: k in s.dir && s'.dir[k] == s.dir[k] && !(k.t == t && lo <= k.d < d))
    && (forall k | k in s.dir && !(k.t == t && lo <= k.d < d) :: k in s'.dir)
    && (forall l | !Gone(l, t, lo, d, e) :: Sees(s', l) == Sees(s, l))
  }

  lemma ClearEntry(s: Mm, s': Mm, t: nat, lo: nat, d: nat, e: nat)
    requires Inv(s') && Cleared(s, s', t, lo, d, e) && lo <= d
    ensures var l := Loc(t, d, e);
            l in s'.pte ==>
              (match s'.pte[l]
               case Swapped(n) => 0 < n < |s'.swapMap|
               case Present(f, _, _) => f < s'.high && f < |s'.memMap| && s'.memMap[f] != 0)
              && Inv(Unmap(s', l)) && Cleared(s, Unmap(s', l), t, lo, d, e + 1)
    ensures Loc(t, d, e) !in s'.pte ==> Cleared(s, s', t, lo, d, e + 1)
  {
    hide Inv, FramesOk, Initial, Sees, Cleared, SameSetting;
    var l := Loc(t, d, e);
    if l in s'.pte {
      UnmapKeeps(s', l);
      UnmapSetting(s', l);
      ClearOn(s, s', Unmap(s', l), t, lo, d, e);
    } else {
      SettingSelf(s');
      ClearOn(s, s', s', t, lo, d, e);
    }
  }

  lemma SettingSelf(s: Mm)
    ensures SameSetting(s, s)
  {
  }

  /** One entry more, if there was one. */
  lemma ClearOn(s: Mm, s1: Mm, s2: Mm, t: nat, lo: nat, d: nat, e: nat)
    requires Cleared(s, s1, t, lo, d, e) && lo <= d && SameSetting(s1, s2)
    requires s2.dir == s1.dir && s2.pte == s1.pte - {Loc(t, d, e)} && SameElsewhere(s1, s2, Loc(t, d, e))
    ensures Cleared(s, s2, t, lo, d, e + 1)
  {
    hide Sees, HeldSet;
    SettingTrans(s, s1, s2);
    forall m: Loc ensures Gone(m, t, lo, d, e + 1) <==> Gone(m, t, lo, d, e) || m == Loc(t, d, e) {
      assert m == Loc(m.t, m.d, m.e);
    }
  }

  lemma SettingTrans(s0: Mm, s1: Mm, s2: Mm)
    requires SameSetting(s0, s1) && SameSetting(s1, s2)
    ensures SameSetting(s0, s2)
  {
    forall f | IsHeld(s0, f) ensures At(s2.mem, f) == At(s0.mem, f) {
      assert f in HeldSet(s0);
    }
  }

  lemma UnmapSetting(s: Mm, l: Loc)
    requires Inv(s) && l in s.pte
    ensures (match s.pte[l]
             case Swapped(n) => n < |s.swapMap|
             case Present(f, _, _) => f < |s.memMap| && s.memMap[f] != 0)
    ensures SameSetting(s, Unmap(s, l))
  {
    hide FramesOk, SwapOk, CleanOk, Located, Initial, Sees;
    UnmapKeeps(s, l);
    EntryFacts(s, l);
  }

  lemma ClearTable(s: Mm, s': Mm, t: nat, lo: nat, d: nat)
    requires Inv(s') && Cleared(s, s', t, lo, d, 1024) && lo <= d
    ensures var k := Dir(t, d);
            k in s'.dir ==>
              s'.dir[k] < s'.high && s'.dir[k] < |s'.memMap| && s'.memMap[s'.dir[k]] == 1
              && Inv(DropTable(s', k)) && Cleared(s, DropTable(s', k), t, lo, d + 1, 0)
    ensures Dir(t, d) !in s'.dir ==> Cleared(s, s', t, lo, d + 1, 0)
  {
    var k := Dir(t, d);
    RowGone(s, s', t, lo, d);
    hide Inv, FramesOk, Initial, Sees, Cleared, SameSetting;
    if k in s'.dir {
      TableFacts(s', k);
      DropTableKeeps(s', k);
      DropSetting(s', k);
      ClearRow(s, s', DropTable(s', k), t, lo, d);
    } else {
      SettingSelf(s');
      ClearRow(s, s', s', t, lo, d);
    }
  }

  lemma RowGone(s: Mm, s': Mm, t: nat, lo: nat, d: nat)
    requires Inv(s') && Cleared(s, s', t, lo, d, 1024) && lo <= d
    ensures forall m | m in s'.pte :: Dir(m.t, m.d) != Dir(t, d)
  {
    hide FramesOk, SwapOk, CleanOk, Initial, Sees, SameSetting;
    forall m | m in s'.pte ensures Dir(m.t, m.d) != Dir(t, d) {
      assert !Gone(m, t, lo, d, 1024);
    }
  }

  /** One table more, if there was one. */
  lemma ClearRow(s: Mm, s1: Mm, s2: Mm, t: nat, lo: nat, d: nat)
    requires Cleared(s, s1, t, lo, d, 1024) && lo <= d && SameSetting(s1, s2) && SameSights(s1, s2)
    requires s2.pte == s1.pte && s2.dir == s1.dir - {Dir(t, d)} && forall m | m in s1.pte :: Dir(m.t, m.d) != Dir(t, d)
    ensures Cleared(s, s2, t, lo, d + 1, 0)
  {
    hide Sees, HeldSet;
    SettingTrans(s, s1, s2);
    forall m: Loc | m in s1.pte ensures !Gone(m, t, lo, d + 1, 0) { assert !Gone(m, t, lo, d, 1024); }
    assert forall m: Loc | !Gone(m, t, lo, d + 1, 0) :: !Gone(m, t, lo, d, 1024);
  }

  lemma DropSetting(s: Mm, k: Dir)
    requires Inv(s) && k in s.dir && s.dir[k] < |s.memMap| && s.memMap[s.dir[k]] != 0
    ensures SameSetting(s, DropTable(s, k))
  {
    hide SwapOk, CleanOk, Located, Counted, Initial, Sees;
  }

  // ---------------------------------------------------------------- copy_page_tables

  /** Everything outside task `c` shows what it showed. */
  ghost predicate OthersSame(s: Mm, s': Mm, c: nat) {
    && SameSetting(s, s')
    && (forall l: Loc | l.t != c :: Sees(s', l) == Sees(s, l))
  }

  /** Task `c` shows what task `p` showed, up to (d, e), and maps nothing beyond. */
  ghost predicate Copied(s: Mm, s': Mm, p: nat, c: nat, d: nat, e: nat) {
    && OthersSame(s, s', c)
    && (forall l: Loc | l.t == c && Before(l, d, e) && l.e < 1024 :: Sees(s', l) == Sees(s, Loc(p, l.d, l.e)))
    && (forall l | l in s'.pte && l.t == c :: Before(l, d, e))
  }

  /** Before row `d` is begun. */
  ghost predicate AtRow(s: Mm, s': Mm, p: nat, c: nat, d: nat) {
    Copied(s, s', p, c, d, 0) && forall k | k in s'.dir && k.t == c :: k.d < d
  }

  /** While row `d` is copied: the child has its page table. */
  ghost predicate InRow(s: Mm, s': Mm, p: nat, c: nat, d: nat, e: nat) {
    Copied(s, s', p, c, d, e) && Dir(c, d) in s'.dir && forall k | k in s'.dir && k.t == c :: k.d <= d
  }

  /** What fork starts from: a child with the parent's executable and library, and no pages. */
  predicate Twins(s: Mm, p: nat, c: nat) {
    p != c && p in s.prog && c in s.prog && s.prog[c] == s.prog[p]
  }

  lemma CopiedCalm(s: Mm, s1: Mm, s2: Mm, p: nat, c: nat, d: nat, e: nat)
    requires Copied(s, s1, p, c, d, e) && Calm(s1, s2) && HeldSet(s2) == HeldSet(s1)
    ensures Copied(s, s2, p, c, d, e)
  {
    hide Sees;
    SettingTrans(s, s1, s2);
    assert forall l | l in s2.pte :: l in s1.pte;
  }

  /** The parent maps nothing at this place: the child starts from the same initial page. */
  lemma CopyNothing(s: Mm, s': Mm, p: nat, c: nat, d: nat, e: nat)
    requires InRow(s, s', p, c, d, e) && Twins(s, p, c) && Loc(p, d, e) !in s'.pte
    ensures InRow(s, s', p, c, d, e + 1)
  {
  }

  /** The parent has no page table here at all. */
  lemma CopyNoTable(s: Mm, s': Mm, p: nat, c: nat, d: nat)
    requires Inv(s') && AtRow(s, s', p, c, d) && Twins(s, p, c) && Dir(p, d) !in s'.dir
    ensures AtRow(s, s', p, c, d + 1)
  {
  }

  lemma CopyRow(s: Mm, s': Mm, p: nat, c: nat, d: nat)
    requires InRow(s, s', p, c, d, 1024)
    ensures AtRow(s, s', p, c, d + 1)
  {
  }

  lemma CopyTable(s: Mm, s1: Mm, s2: Mm, p: nat, c: nat, d: nat, f: nat)
    requires AtRow(s, s1, p, c, d) && Calm(s1, s2) && f !in HeldSet(s1) && HeldSet(s2) == HeldSet(s1) + {f}
    requires Inv(s2) && IsHeld(s2, f) && c in s2.prog && d < TASK_DIRS
    ensures var s3 := AddTable(s2, Dir(c, d), f); Inv(s3) && InRow(s, s3, p, c, d, 0)
  {
    hide FramesOk, SwapOk, CleanOk, Located, Initial, Sees;
    var k := Dir(c, d);
    assert k !in s1.dir;
    GiveTable(s2, k, f);
    CalmIsQuiet(s1, s2);
    TakeAndGive(s1, s2, AddTable(s2, k, f), f);
    QuietSetting(s1, AddTable(s2, k, f));
    SettingTrans(s, s1, AddTable(s2, k, f));
    assert forall l | l in s2.pte :: l in s1.pte;
  }

  lemma QuietSetting(s: Mm, s': Mm)
    requires Quiet(s, s') && HeldSet(s') == HeldSet(s)
    ensures SameSetting(s, s')
  {
  }

  /** One more entry of the child shows what the parent's shows; everything else is as it was. */
  lemma CopyOne(s: Mm, s1: Mm, s2: Mm, p: nat, c: nat, d: nat, e: nat)
    requires InRow(s, s1, p, c, d, e) && Twins(s, p, c)
    requires SameSetting(s1, s2) && s2.dir == s1.dir
    requires SameElsewhere(s1, s2, Loc(c, d, e)) && Sees(s2, Loc(c, d, e)) == Sees(s1, Loc(p, d, e))
    requires s2.pte.Keys <= s1.pte.Keys + {Loc(c, d, e)}
    ensures InRow(s, s2, p, c, d, e + 1)
  {
    hide Sees;
    SettingTrans(s, s1, s2);
    forall m: Loc | m.t == c && Before(m, d, e + 1) && m.e < 1024
      ensures Sees(s2, m) == Sees(s, Loc(p, m.d, m.e))
    {
      if !Before(m, d, e) {
        assert m == Loc(c, d, e);
      }
    }
    forall m | m in s2.pte && m.t == c ensures Before(m, d, e + 1) {
      assert m in s1.pte || m == Loc(c, d, e);
    }
  }

  lemma CopyShared(s: Mm, s1: Mm, p: nat, c: nat, d: nat, e: nat)
    requires Inv(s1) && InRow(s, s1, p, c, d, e) && Twins(s, p, c) && e < 1024
    requires Loc(p, d, e) in s1.pte && s1.pte[Loc(p, d, e)].Present?
    ensures s1.pte[Loc(p, d, e)].frame < |s1.memMap|
    ensures var s2 := Share(s1, Loc(p, d, e), Loc(c, d, e)); Inv(s2) && InRow(s, s2, p, c, d, e + 1)
  {
    hide FramesOk, SwapOk, CleanOk, Located, Image, Sees;
    var from, to := Loc(p, d, e), Loc(c, d, e);
    EntryFacts(s1, from);
    ShareKeeps(s1, from, to);
    CopyOne(s, s1, Share(s1, from, to), p, c, d, e);
  }

  lemma CopySwapped(s: Mm, s1: Mm, s2: Mm, p: nat, c: nat, d: nat, e: nat, f: nat)
    requires Inv(s2) && InRow(s, s1, p, c, d, e) && Twins(s, p, c) && e < 1024
    requires Calm(s1, s2) && f !in HeldSet(s1) && HeldSet(s2) == HeldSet(s1) + {f}
    requires Loc(p, d, e) in s2.pte && s2.pte[Loc(p, d, e)].Swapped?
    ensures s2.pte[Loc(p, d, e)].slot in s2.swap
    ensures var s3 := SplitSlot(s2, Loc(p, d, e), Loc(c, d, e), f); Inv(s3) && InRow(s, s3, p, c, d, e + 1)
  {
    hide FramesOk, SwapOk, CleanOk, Located, Image, Sees;
    var from, to := Loc(p, d, e), Loc(c, d, e);
    assert f in HeldSet(s2);
    assert to in s2.pte ==> to in s1.pte;
    GiveSplit(s2, from, to, f);
    var s3 := SplitSlot(s2, from, to, f);
    assert SameSetting(s1, s3) by {
      assert forall g | IsHeld(s1, g) :: g in HeldSet(s1) && g != f && IsHeld(s2, g);
    }
    CopyOne(s, s1, s3, p, c, d, e);
  }

  lemma ClearedSelf(s: Mm, t: nat, lo: nat)
    ensures Cleared(s, s, t, lo, lo, 0)
  {
  }

  lemma AtRowSelf(s: Mm, p: nat, c: nat)
    requires Inv(s) && forall k | k in s.dir :: k.t != c
    ensures AtRow(s, s, p, c, 0)
  {
  }

  lemma RowFacts(s: Mm, s': Mm, p: nat, c: nat, d: nat, e: nat)
    requires Copied(s, s', p, c, d, e)
    ensures OthersSame(s, s', c) && s'.prog == s.prog && s'.files == s.files
  {
  }

  lemma RowCalm(s: Mm, s1: Mm, s2: Mm, p: nat, c: nat, d: nat, e: nat)
    requires InRow(s, s1, p, c, d, e) && Calm(s1, s2) && HeldSet(s2) == HeldSet(s1)
    ensures OthersSame(s, s2, c)
  {
    hide Sees, OthersSame, Calm, HeldSet;
    CopiedCalm(s, s1, s2, p, c, d, e);
  }

  lemma SplitView(s: Mm, from: Loc, to: Loc, f: nat)
    requires from in s.pte && s.pte[from].Swapped? && s.pte[from].slot in s.swap && from != to
    ensures SplitSlot(s, from, to, f)
         == s.(mem := s.mem[f := s.swap[s.pte[from].slot]],
               pte := s.pte[to := Swapped(s.pte[from].slot)][from := Present(f, true, true)],
               slotOf := s.slotOf[s.pte[from].slot := to], role := s.role[f := Solo(from)])
  {
  }
}
