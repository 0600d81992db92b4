/** What the paging invariant means for the kernel's own bookkeeping. */
module PagingTheorems {
  import opened Kernel
  import opened Paging
  import opened PagingSteps

  /** Everything that owns frame `f`: page-table entries, page directory entries, kernel code. */
  function Owners(s: Mm, f: nat): nat {
    |Refs(s.pte, f)| + |set k | k in s.dir && s.dir[k] == f| + if IsHeld(s, f) then 1 else 0
  }

  /** `mem_map` is the number of owners of every usable frame and USED for every other. */
  lemma CountIsOwners(s: Mm, f: nat)
    requires Inv(s) && f < PAGING_PAGES
    ensures s.memMap[f] == if s.start <= f < s.high then Owners(s, f) else USED
  {
    hide SwapOk, CleanOk, Initial;
    assert forall l | l in s.pte :: Fits(l, s.pte[l], s.role);
    if f in s.role && (s.role[f].Held? || s.role[f].Table?) {
      assert Refs(s.pte, f) == {};
    }
    if f in s.role && s.role[f].Table? {
      assert (set k | k in s.dir && s.dir[k] == f) == {s.role[f].k};
    } else {
      assert (set k | k in s.dir && s.dir[k] == f) == {};
    }
  }

  /** A page table, a user page and a kernel page are never the same frame, no two directory
      entries share a table, and a writable entry is the only reference to its frame. */
  lemma NoFrameHasTwoUses(s: Mm, l: Loc, m: Loc, k: Dir)
    requires Inv(s) && l in s.pte && s.pte[l].Present?
    ensures !IsHeld(s, s.pte[l].frame)
    ensures k in s.dir ==> s.dir[k] != s.pte[l].frame && !IsHeld(s, s.dir[k])
    ensures m in s.pte && s.pte[m].Present? && m != l && s.pte[m].frame == s.pte[l].frame ==>
              !s.pte[l].rw && !s.pte[m].rw && l.d == m.d && l.e == m.e && l.t != m.t
    ensures s.pte[l].rw ==> s.memMap[s.pte[l].frame] == 1
  {
    hide SwapOk, CleanOk, Initial;
    var f := s.pte[l].frame;
    assert Fits(l, s.pte[l], s.role);
    if m in s.pte { assert Fits(m, s.pte[m], s.role); }
    if s.pte[l].rw {
      Alone(s, l);
      assert Refs(s.pte, f) == {l};
    }
  }

  lemma TablesAreDistinct(s: Mm, j: Dir, k: Dir)
    requires Inv(s) && j in s.dir && k in s.dir && s.dir[j] == s.dir[k]
    ensures j == k
  {
  }

  /** All entries that map a frame sit at one offset of distinct tasks, so a usable frame has at
      most 63 owners: the byte in `mem_map` neither reaches USED nor wraps around. */
  lemma CountStaysSmall(s: Mm, f: nat)
    requires Inv(s) && s.start <= f < s.high
    ensures s.memMap[f] < NR_TASKS < USED
  {
    hide SwapOk, CleanOk, Initial;
    var refs := Refs(s.pte, f);
    assert forall l | l in refs :: Fits(l, s.pte[l], s.role) && Dir(l.t, l.d) in s.dir && IsTask(l.t, NR_TASKS);
    var tasks := set l | l in refs :: l.t;
    assert tasks <= Tasks(NR_TASKS);
    CardinalityMonotone(tasks, Tasks(NR_TASKS));
    TaskCount(NR_TASKS);
    OnePerTask(refs, tasks);
  }

  predicate IsTask(t: nat, n: nat) { 1 <= t < n }

  function Tasks(n: nat): set<nat> {
    set t: nat {:trigger IsTask(t, n)} | t < n && IsTask(t, n)
  }

  lemma {:induction false} TaskCount(n: nat)
    requires n >= 1
    ensures |Tasks(n)| == n - 1
  {
    if n == 1 {
      assert Tasks(n) == {};
    } else {
      TaskCount(n - 1);
      assert forall t :: IsTask(t, n) <==> IsTask(t, n - 1) || t == n - 1;
      assert Tasks(n) == Tasks(n - 1) + {n - 1};
    }
  }

  /** Distinct entries at one offset belong to distinct tasks. */
  lemma {:induction false} OnePerTask(refs: set<Loc>, tasks: set<nat>)
    requires tasks == set l | l in refs :: l.t
    requires forall l, m | l in refs && m in refs :: l.d == m.d && l.e == m.e
    ensures |refs| == |tasks|
    decreases refs
  {
    if refs != {} {
      var l :| l in refs;
      var rest := refs - {l};
      OnePerTask(rest, set m | m in rest :: m.t);
      assert tasks == (set m | m in rest :: m.t) + {l.t};
      assert forall m | m in rest :: m.t != l.t;
    }
  }

  /** A usable slot is free in the bitmap exactly when no entry names it, and never has two names. */
  lemma SlotFreeOrNamedOnce(s: Mm, n: nat)
    requires Inv(s) && n in s.usable
    ensures n < |s.swapMap|
    ensures s.swapMap[n] <==> forall l | l in s.pte :: s.pte[l] != Swapped(n)
    ensures forall l, m | l in s.pte && m in s.pte && s.pte[l] == Swapped(n) && s.pte[m] == Swapped(n) :: l == m
  {
  }
}
