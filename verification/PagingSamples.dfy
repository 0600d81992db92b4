/** Concrete states in which the paging code does less than it seems to promise. */
module PagingSamples {
  import opened Kernel
  import opened Paging
  import opened PagingSteps
  import opened Calmness
  import opened PagingKernel
  import opened PrivateMemory
  import opened SwapClock

  /** The first `used` frames in use, each once, and no other memory; frame 1 is a clean page of zeros at `l`. */
  function Sample(used: nat, dir: map<Dir, nat>, l: Loc, prog: map<nat, Prog>, files: Files, role: map<nat, Role>): Mm {
    Mm(0, used, seq(PAGING_PAGES, f => if f < used then 1 else USED),
       map[0 := Zeros(PAGE_SIZE), 1 := Zeros(PAGE_SIZE), 2 := Zeros(PAGE_SIZE)],
       dir, map[l := Present(1, true, false)], [], map[], prog, files, {}, role, map[])
  }

  lemma SampleRefs(l: Loc, f: nat)
    ensures Refs(map[l := Present(1, true, false)], f) == if f == 1 then {l} else {}
  {
  }

  lemma SampleInv(used: nat, dir: map<Dir, nat>, l: Loc, prog: map<nat, Prog>, files: Files, role: map<nat, Role>)
    requires 2 <= used <= 3 && FilesOk(files) && forall t | t in prog :: 1 <= t < 64
    requires forall k | k in dir :: k.t in prog && k.d < TASK_DIRS && dir[k] in role && role[dir[k]] == Table(k)
    requires forall f :: f in role <==> 0 <= f < used
    requires role[1] == Solo(l)
    requires forall f | f in role && f != 1 :: role[f].Table? && role[f].k in dir && dir[role[f].k] == f
    requires Dir(l.t, l.d) in dir && l.e < 1024 && Initial(prog, files, l) == Zeros(PAGE_SIZE)
    ensures Inv(Sample(used, dir, l, prog, files, role))
  {
    var s := Sample(used, dir, l, prog, files, role);
    hide Counted, RolesOk, Shape, Located, SwapOk, CleanOk, Initial, FilesOk;
    SampleShape(s, l);
    SampleClean(s, l);
    SampleCounted(s, used, l, role);
    SampleRoles(s, used, l);
  }

  lemma SampleShape(s: Mm, l: Loc)
    requires |s.memMap| == PAGING_PAGES && s.start == 0 && s.high <= 3 && FilesOk(s.files)
    requires s.swapMap == [] && s.usable == {}
    requires forall f | 0 <= f < 3 :: f in s.mem && |s.mem[f]| == PAGE_SIZE
    requires s.slotOf == map[] && s.pte == map[l := Present(1, true, false)] && forall t | t in s.prog :: 1 <= t < 64
    requires forall k | k in s.dir :: k.t in s.prog && k.d < TASK_DIRS
    requires Dir(l.t, l.d) in s.dir && l.e < 1024
    ensures Shape(s) && Located(s.dir, s.pte, s.prog) && SwapOk(s.swapMap, s.swap, s.usable, s.slotOf, s.pte)
  {
    hide FilesOk;
  }

  lemma SampleRoles(s: Mm, used: nat, l: Loc)
    requires s.pte == map[l := Present(1, true, false)] && 2 <= used
    requires forall k | k in s.dir :: s.dir[k] in s.role && s.role[s.dir[k]] == Table(k)
    requires forall f :: f in s.role <==> 0 <= f < used
    requires s.role[1] == Solo(l)
    requires forall f | f in s.role && f != 1 :: s.role[f].Table? && s.role[f].k in s.dir && s.dir[s.role[f].k] == f
    ensures RolesOk(0, used, s.role, s.dir, s.pte)
  {
  }

  lemma SampleClean(s: Mm, l: Loc)
    requires s.pte == map[l := Present(1, true, false)] && At(s.mem, 1) == Initial(s.prog, s.files, l)
    ensures CleanOk(s.pte, s.mem, s.prog, s.files)
  {
    hide Initial;
  }

  lemma SampleCounted(s: Mm, used: nat, l: Loc, role: map<nat, Role>)
    requires 2 <= used && s.memMap == seq(PAGING_PAGES, f => if f < used then 1 else USED)
    requires s.pte == map[l := Present(1, true, false)]
    requires forall f :: f in role <==> 0 <= f < used
    requires role[1] == Solo(l) && forall f | f in role && f != 1 :: role[f].Table?
    ensures Counted(0, used, s.memMap, role, s.pte)
  {
    hide Refs;
    forall f | 0 <= f < PAGING_PAGES
      ensures s.memMap[f] == if f >= used then USED
                             else if f in role && (role[f].Held? || role[f].Table?) then 1 else |Refs(s.pte, f)|
    {
      SampleRefs(l, f);
    }
  }

  /** Task 1 has one page, and it is clean. */
  function OnePage(): Mm {
    Sample(2, map[Dir(1, 0) := 0], Loc(1, 0, 0), map[1 := Prog(0, 0)], Files(map[], map[]),
           map[0 := Table(Dir(1, 0)), 1 := Solo(Loc(1, 0, 0))])
  }

  /** When the clock stands on the only page table there is, swap_out gives up at once. */
  lemma LoneTable(s: Mm, h: Hand)
    requires HandOk(h) && s.dir.Keys == {TableAt(h.dir)} && h.dir < 1024
    ensures Stuck(s, h)
  {
    forall l | Evictable(s, l) ensures !Tried(s.dir.Keys, h, l) {
      if Tried(s.dir.Keys, h, l) {
        OwnTableMissed(s.dir.Keys, h, l);
        NumberTable(l);
      }
    }
  }

  /** A page could leave memory, and swap_out does not find it. */
  lemma GivesUpEarly(page: int)
    requires -1 <= page < 1024
    ensures Inv(OnePage()) && Evictable(OnePage(), Loc(1, 0, 0)) && Stuck(OnePage(), Hand(16, page))
  {
    var s := OnePage();
    SampleInv(2, s.dir, Loc(1, 0, 0), s.prog, s.files, s.role);
    hide Inv;
    assert TableAt(16) == Dir(1, 0);
    LoneTable(s, Hand(16, page));
  }

  /** Task 1 runs executable 7, whose first block is all ones; task 2, with a clean page of zeros, ran something
      else. */
  function ExecWindow(): Mm {
    Sample(3, map[Dir(2, 0) := 0, Dir(1, 0) := 2], Loc(2, 0, 0), map[1 := Prog(7, 0), 2 := Prog(5, 0)],
           Files(map[(7, 1) := seq(BLOCK_SIZE, i => 1)], map[7 := PAGE_SIZE]),
           map[0 := Table(Dir(2, 0)), 1 := Solo(Loc(2, 0, 0)), 2 := Table(Dir(1, 0))])
  }

  lemma WindowImages()
    ensures Image(ExecWindow().files, Prog(5, 0), 0, 0) == Zeros(PAGE_SIZE)
    ensures Image(ExecWindow().files, Prog(7, 0), 0, 0) != Zeros(PAGE_SIZE)
    ensures FilesOk(ExecWindow().files)
  {
    var files := ExecWindow().files;
    assert Source(files, Prog(7, 0), Offset(0, 0)) == (7, 1);
    assert FileBlock(files, 7, 1)[0] == 1;
    assert Image(files, Prog(7, 0), 0, 0)[0] == 1;
  }

  lemma WindowInv()
    ensures Inv(ExecWindow())
  {
    WindowImages();
    var s := ExecWindow();
    hide Inv, Image, FilesOk, Zeros;
    SampleInv(3, s.dir, Loc(2, 0, 0), s.prog, s.files, s.role);
  }

  lemma WindowShares()
    ensures var s, l := ExecWindow(), Loc(1, 0, 0);
            FirstSharer(Now(s.prog, map[2 := 7]), s.pte, l, 2) && Exposes(s.prog, s.files, map[2 := 7], l, 2)
  {
    WindowImages();
    hide Image, FilesOk, Zeros;
  }

  /** While task 2 changes to that executable and sleeps, task 1 is given its page of zeros for a page of ones. */
  lemma MisledByExec()
    ensures var s, l := ExecWindow(), Loc(1, 0, 0);
            && Inv(s) && AsksToShare(s, l, 2) && StaleFirst(s, Now(s.prog, map[2 := 7]), l)
            && Exposed(s, map[2 := 7], l)
  {
    WindowInv();
    WindowShares();
    hide Inv, Stale, FirstSharer, FilesOk, Zeros, Now;
    var s := ExecWindow();
    assert Source(s.files, Prog(7, 0), Offset(0, 0)) == (7, 1);
  }
}
