/** mm/memory.c, mm/swap.c and copy_mem of kernel/fork.c, over the page tables and `mem_map`
    they update in place.  Every method is proved to keep the paging invariant and to leave what
    the tasks see as the calls promise: faulting, sharing, copying on write and swapping change
    nothing any task can read. */
module PagingKernel {
  import opened Kernel
  import opened Wrappers
  import opened Paging
  import opened PagingSteps
  import opened Calmness
  import opened PagingRanges
  import opened SwapClock

  datatype Outcome = Done | OutOfMemory

  class Memory {
    const start: nat
    const high: nat
    const files: Files
    const memMap: array<nat>
    var mem: map<nat, Page>
    var pgDir: map<Dir, nat>
    var pte: map<Loc, Pte>
    var swapMap: seq<bool>
    var swap: map<nat, Page>
    var prog: map<nat, Prog>
    var dirEntry: nat
    var pageEntry: int
    ghost var usable: set<nat>
    ghost var role: map<nat, Role>
    ghost var slotOf: map<nat, Loc>
    ghost var gaveUp: nat              // how often get_free_page returned nothing
    ghost var stuckAt: Hand            // where the clock stood when it last did

    ghost function View(): Mm
      reads this, memMap
    {
      Mm(start, high, memMap[..], mem, pgDir, pte, swapMap, swap, prog, files, usable, role, slotOf)
    }

    ghost predicate Valid()
      reads this, memMap
    {
      Inv(View()) && HandOk(Clock())
    }

    /** Where swap_out left its clock. */
    function Clock(): Hand
      reads this
    {
      Hand(dirEntry, pageEntry)
    }

    /** mem_init: every page from start_mem to end_mem is free, every other one is USED. */
    constructor (startMem: nat, endMem: nat, files: Files)
      requires startMem <= endMem <= PAGING_PAGES && FilesOk(files)
      ensures Valid() && fresh(memMap)
      ensures prog == map[] && pte == map[] && pgDir == map[] && swapMap == [] && role == map[]
      ensures start == startMem && high == endMem && this.files == files
    {
      start, high, this.files := startMem, endMem, files;
      memMap := new nat[PAGING_PAGES](_ => USED);
      var m: map<nat, Page> := map[];
      var i := startMem;
      while i < endMem
        invariant startMem <= i <= endMem
        invariant forall f | startMem <= f < i :: f in m && |m[f]| == PAGE_SIZE
      {
        m := m[i := Zeros(PAGE_SIZE)];
        i := i + 1;
      }
      mem := m;
      pgDir, pte, swapMap, swap, prog := map[], map[], [], map[], map[];
      dirEntry, pageEntry := 1024, -1;
      usable, role, slotOf, gaveUp, stuckAt := {}, map[], map[], 0, Hand(1024, -1);
      new;
      i := startMem;
      while i < endMem
        invariant startMem <= i <= endMem
        invariant forall f | 0 <= f < PAGING_PAGES :: memMap[f] == if startMem <= f < i then 0 else USED
        modifies memMap
      {
        memMap[i] := 0;
        i := i + 1;
      }
      assert forall f: nat :: Refs(map[], f) == {};
    }

    /** free_page */
    method FreePage(f: nat)
      requires high <= memMap.Length
      modifies this`role, memMap
      ensures View() == if f < high && old(memMap[..])[f] != 0 then Release(old(View()), f) else old(View())
    {
      if f < high {
        if memMap[f] != 0 {
          role := if memMap[f] == 1 then role - {f} else role;
          memMap[f] := memMap[f] - 1;
        } else {
          memMap[f] := 0;
        }
      }
    }

    /** get_swap_page: the lowest free slot, 0 when there is none or no swap area. */
    method GetSwapPage() returns (nr: nat)
      modifies this`swapMap
      requires swapMap == [] || |swapMap| == SWAP_BITS
      ensures nr == 0 ==> swapMap == old(swapMap) && forall n | 1 <= n < |swapMap| :: !swapMap[n]
      ensures nr != 0 ==> nr < |old(swapMap)| && old(swapMap)[nr] && swapMap == old(swapMap)[nr := false]
                          && forall n | 1 <= n < nr :: !swapMap[n]
    {
      if swapMap == [] {
        return 0;
      }
      nr := 1;
      while nr < SWAP_BITS
        invariant 1 <= nr <= SWAP_BITS && swapMap == old(swapMap)
        invariant forall n | 1 <= n < nr :: !swapMap[n]
      {
        if swapMap[nr] {
          swapMap := swapMap[nr := false];
          return;
        }
        nr := nr + 1;
      }
      nr := 0;
    }

    /** swap_free */
    method SwapFree(nr: nat)
      modifies this`swapMap
      requires swapMap == [] || |swapMap| == SWAP_BITS
      ensures swapMap == if 0 < nr < |old(swapMap)| then old(swapMap)[nr := true] else old(swapMap)
    {
      if nr == 0 {
        return;
      }
      if swapMap != [] && nr < SWAP_BITS {
        swapMap := swapMap[nr := true];
      }
    }

    /** The entry gets a swap slot, and the page goes there. */
    method WriteOut(l: Loc, nr: nat, ghost s: Mm)
      requires Inv(s) && l in s.pte && s.pte[l].Present? && 0 < nr < |s.swapMap| && s.swapMap[nr]
      requires View() == s.(swapMap := s.swapMap[nr := false]) && HandOk(Clock())
      modifies this, memMap
      ensures Valid() && Calm(s, View()) && HeldSet(View()) == HeldSet(s)
      ensures pte == old(pte)[l := Swapped(nr)]
      ensures Clock() == old(Clock()) && gaveUp == old(gaveUp) && stuckAt == old(stuckAt)
    {
      hide FramesOk, SwapOk, CleanOk, Located, Calm, HeldSet, Sees;
      var page := pte[l].frame;
      SwapOutDirty(s, l, nr);
      pte := pte[l := Swapped(nr)];
      slotOf := slotOf[nr := l];
      swap := swap[nr := mem[page]];
      FreePage(page);
      assert View() == SwapOut(s, l, nr);
    }

    /** A clean page can be had again from its file. */
    method Discard(l: Loc)
      requires Valid() && l in pte && pte[l].Present? && !pte[l].dirty
      modifies this, memMap
      ensures Valid() && Calm(old(View()), View()) && HeldSet(View()) == HeldSet(old(View()))
      ensures pte == old(pte) - {l}
      ensures Clock() == old(Clock()) && gaveUp == old(gaveUp) && stuckAt == old(stuckAt)
    {
      hide FramesOk, SwapOk, CleanOk, Located, Calm, HeldSet, Sees;
      ghost var s := View();
      var page := pte[l].frame;
      DropClean(s, l);
      pte := pte - {l};
      FreePage(page);
      assert View() == Unmap(s, l);
    }

    /** try_to_swap_out: a clean page is dropped, a dirty one that nobody shares goes to swap. */
    method TryToSwapOut(l: Loc) returns (ok: bool)
      requires Valid()
      modifies this, memMap
      ensures Valid() && Calm(old(View()), View()) && HeldSet(View()) == HeldSet(old(View()))
      ensures Clock() == old(Clock()) && gaveUp == old(gaveUp) && stuckAt == old(stuckAt)
      ensures !ok ==> View() == old(View())
      ensures ok ==> WentOut(old(pte), pte, l) && (l in pte <==> old(pte[l]).dirty)
      ensures ok <==> Evictable(old(View()), l)
    {
      hide FramesOk, SwapOk, CleanOk, Located, Calm, HeldSet, Sees, SwapOut;
      if l !in pte || pte[l].Swapped? {
        CalmSelf(View());
        return false;
      }
      ghost var s := View();
      EntryFacts(s, l);
      var page := pte[l].frame;
      if pte[l].dirty {
        if memMap[page] != 1 {
          CalmSelf(View());
          return false;
        }
        var nr := GetSwapPage();
        if nr == 0 {
          CalmSelf(View());
          return false;
        }
        WriteOut(l, nr, s);
        return true;
      }
      Discard(l);
      return true;
    }

    /** The first half of swap_out's clock: on to the next page directory entry in use. */
    method NextTable(counter: int) returns (left: int)
      requires FIRST_TABLE <= dirEntry <= 1024 && counter <= VM_PAGES
      modifies this`dirEntry
      ensures FIRST_TABLE <= dirEntry <= 1024
      ensures left > 0 ==>
                && dirEntry in Used(pgDir.Keys) && left == counter - 1024 * Steps(old(dirEntry), dirEntry)
                && forall n | n in Used(pgDir.Keys) :: Steps(old(dirEntry), dirEntry) <= Steps(old(dirEntry), n)
      ensures left <= 0 ==> forall n | n in Used(pgDir.Keys) :: counter <= 1024 * Steps(old(dirEntry), n)
    {
      left := counter;
      var found := false;
      ghost var k := 0;
      while left > 0 && !found
        invariant left == counter - 1024 * k && k >= 0 && FIRST_TABLE <= dirEntry <= 1024
        invariant if k == 0 then dirEntry == old(dirEntry) && !found
                    else dirEntry < 1024 && Steps(old(dirEntry), dirEntry) == k
        invariant forall n | n in Used(pgDir.Keys) :: Steps(old(dirEntry), n) >= (if found || k == 0 then k else k + 1)
        invariant found ==> dirEntry in Used(pgDir.Keys)
        decreases left
      {
        left := left - 1024;
        dirEntry := dirEntry + 1;
        if dirEntry >= 1024 {
          dirEntry := FIRST_TABLE;
        }
        k := k + 1;
        forall n | n in Used(pgDir.Keys) && Steps(old(dirEntry), n) == k ensures n == dirEntry {
          StepsInjective(old(dirEntry), n, dirEntry);
        }
        found := TableAt(dirEntry) in pgDir;
      }
    }

    /** The clock goes on by one entry and tries the page there. */
    method TryNext(ghost s: Mm, ghost page: int, ghost c: nat, ghost counter: nat) returns (ok: bool, again: bool)
      requires Valid() && View() == s && dirEntry < 1024 && c < counter
      requires Scanning(s, dirEntry, page, pageEntry, c, false)
      modifies this, memMap
      ensures Valid() && Calm(s, View()) && HeldSet(View()) == HeldSet(s)
      ensures dirEntry == old(dirEntry) && gaveUp == old(gaveUp) && stuckAt == old(stuckAt)
      ensures ok ==> pageEntry >= 0 && Leaves(s, pte, dirEntry, page, pageEntry, counter)
      ensures !ok ==> View() == s && Scanning(s, dirEntry, page, pageEntry, c + 1, again)
    {
      hide Inv, Calm, HeldSet, Sees, Evictable, Here, WentOut, Scanning, Leaves;
      CalmSelf(s);
      ScanSane(s, dirEntry, page, pageEntry, c);
      ScanNext(s, dirEntry, page, pageEntry, c);
      ok, again := false, pageEntry + 1 >= 1024;
      pageEntry := if again then -1 else pageEntry + 1;
      if !again {
        ok := TryToSwapOut(Here(dirEntry, pageEntry));
        if ok {
          ScanFound(s, pte, dirEntry, page, pageEntry, c, counter);
        }
      }
    }

    /** The second half: the pages of one table, until one goes, the counter is used up or the table ends. */
    method ScanTable(counter: int) returns (ok: bool, left: int, again: bool)
      requires Valid() && counter > 0 && dirEntry < 1024
      modifies this, memMap
      ensures Valid() && Calm(old(View()), View()) && HeldSet(View()) == HeldSet(old(View()))
      ensures Scanned(old(View()), old(Clock()), View(), Clock(), counter, ok, left, again)
      ensures gaveUp == old(gaveUp) && stuckAt == old(stuckAt)
    {
      hide Inv, Calm, HeldSet, Sees, NoneAfter, Scanning, Leaves, Ended;
      ghost var s, page, n := View(), pageEntry, dirEntry;
      CalmSelf(s);
      ScanStart(s, n, page);
      ok, left, again := false, counter, false;
      while left > 0 && !again
        invariant Valid() && View() == s && dirEntry == n && gaveUp == old(gaveUp) && stuckAt == old(stuckAt)
        invariant 0 <= left <= counter && Scanning(s, n, page, pageEntry, counter - left, again)
        decreases left
      {
        left := left - 1;
        ok, again := TryNext(s, page, counter - left - 1, counter);
        if ok {
          return;
        }
      }
      ScanOver(s, n, page, pageEntry, counter - left, again, counter);
    }

    /** What it means for the search that the clock goes on to the next table. */
    method ToTable(counter: int, ghost h: Hand, ghost k: nat) returns (left: int)
      requires Valid() && HandOk(h) && 0 <= counter <= VM_PAGES
      requires Searched(View(), h, k, counter) && Turned(View(), h, k, Clock())
      modifies this`dirEntry
      ensures Valid() && View() == old(View())
      ensures left <= 0 ==> Stuck(View(), h)
      ensures left > 0 ==>
                && AtTable(View(), h, k, dirEntry) && dirEntry < 1024 && pageEntry + 1 == Start(View(), h, k)
                && left == counter - 1024 * (Steps(h.dir, dirEntry) - k) < counter
    {
      hide Inv, Searched, AtTable, Used, Stuck, Start, Turned, Steps;
      ghost var s, c := View(), Clock();
      left := NextTable(counter);
      if left <= 0 {
        TurnedOver(s, h, k, counter, c);
      } else {
        TurnedOn(s, h, k, counter, c, dirEntry);
        TurnedFacts(s, h, k, c, dirEntry);
      }
    }

    /** One turn of the loop of swap_out: on to the next table and through its pages. */
    method SearchTable(counter: int, ghost h: Hand, ghost k: nat)
      returns (ok: bool, left: int, again: bool, ghost k': nat)
      requires Valid() && HandOk(h) && 0 <= counter <= VM_PAGES
      requires Searched(View(), h, k, counter) && Turned(View(), h, k, Clock())
      modifies this, memMap
      ensures Valid() && Calm(old(View()), View()) && HeldSet(View()) == HeldSet(old(View()))
      ensures gaveUp == old(gaveUp) && stuckAt == old(stuckAt)
      ensures ok ==> Took(old(View()), h, pte, Clock())
      ensures !ok ==> View() == old(View())
      ensures !ok ==>
                if again then Searched(View(), h, k', left) && Turned(View(), h, k', Clock()) && 0 <= left < counter
                      else Stuck(View(), h)
    {
      hide Inv, Calm, HeldSet, Sees, Evictable, Searched, AtTable, Stuck, Start, Turned, WentOut, Here, NoneAfter;
      hide Took, Steps, Leaves;
      ghost var s := View();
      CalmSelf(s);
      ok, again, k' := false, false, k;
      left := ToTable(counter, h, k);
      if left <= 0 {
        return;
      }
      ghost var n := dirEntry;
      ok, left, again := ScanTable(left);
      if ok {
        FoundPage(s, h, k, counter, n, pageEntry, pte);
      } else {
        ScannedTable(s, h, k, counter, n);
        k' := Steps(h.dir, n);
      }
    }

    /** swap_out: a clock over all page tables of tasks 1..63 until one page goes: the first one it comes to, if
        there is one before its counter is used up. */
    method SwapOutSome() returns (ok: bool)
      requires Valid()
      modifies this, memMap
      ensures Valid() && Calm(old(View()), View()) && HeldSet(View()) == HeldSet(old(View()))
      ensures gaveUp == old(gaveUp) && stuckAt == old(stuckAt)
      ensures ok <==> !Stuck(old(View()), old(Clock()))
      ensures !ok ==> View() == old(View())
      ensures ok ==> Took(old(View()), old(Clock()), pte, Clock())
    {
      hide Inv, Calm, HeldSet, Sees, Searched, Stuck, Turned, Took, WentOut;
      ghost var s, h := View(), Clock();
      CalmSelf(s);
      SearchStart(s, h);
      TurnedStart(s, h);
      var counter := VM_PAGES;
      ghost var k: nat := 0;
      while true
        invariant Valid() && View() == s && gaveUp == old(gaveUp) && stuckAt == old(stuckAt)
        invariant Searched(s, h, k, counter) && 0 <= counter <= VM_PAGES && Turned(s, h, k, Clock())
        decreases counter
      {
        var again;
        ok, counter, again, k := SearchTable(counter, h, k);
        if ok {
          TookFacts(s, h, pte, Clock());
          return;
        }
        if !again {
          return;
        }
      }
    }

    /** The stores of get_free_page for the frame it has found. */
    method Allot(i: nat)
      requires Valid() && i < memMap.Length && memMap[i] == 0
      modifies this, memMap
      ensures Valid() && Calm(old(View()), View()) && IsHeld(View(), i) && At(mem, i) == Zeros(PAGE_SIZE)
      ensures i !in HeldSet(old(View())) && HeldSet(View()) == HeldSet(old(View())) + {i}
      ensures pte == old(pte) && Clock() == old(Clock()) && gaveUp == old(gaveUp) && stuckAt == old(stuckAt)
      ensures View() == Alloc(old(View()), i)
    {
      hide FramesOk, SwapOk, CleanOk, Located, Calm, HeldSet, Sees;
      ghost var s := View();
      MapSize(s);
      TakeFrame(s, i);
      memMap[i] := 1;
      mem := mem[i := Zeros(PAGE_SIZE)];
      role := role[i := Held];
      assert View() == Alloc(s, i);
    }

    /** The scan of get_free_page. */
    method FindFree() returns (i: int)
      requires memMap.Length == PAGING_PAGES
      ensures -1 <= i < PAGING_PAGES
      ensures if i < 0 then NoneFree(memMap[..]) else TopFree(memMap[..], i)
    {
      i := PAGING_PAGES - 1;
      while i >= 0 && memMap[i] != 0
        invariant -1 <= i < PAGING_PAGES
        invariant forall f | i < f < PAGING_PAGES :: memMap[f] != 0
      {
        i := i - 1;
      }
    }

    /** get_free_page: the highest free frame, zeroed; swaps pages out until there is one.  It gives up when no frame
        is free and swap_out finds no page before its counter is used up. */
    method GetFreePage() returns (r: Option<nat>)
      requires Valid()
      modifies this, memMap
      ensures Valid() && Calm(old(View()), View())
      ensures r.None? ==> HeldSet(View()) == HeldSet(old(View()))
      ensures r.Some? ==> r.value !in HeldSet(old(View())) && HeldSet(View()) == HeldSet(old(View())) + {r.value}
      ensures r.Some? ==> At(mem, r.value) == Zeros(PAGE_SIZE) && IsHeld(View(), r.value)
      ensures gaveUp == old(gaveUp) + (if r.None? then 1 else 0) && (r.Some? ==> stuckAt == old(stuckAt))
      ensures r.None? ==> NoneFree(memMap[..]) && Stuck(View(), stuckAt)
      ensures NoneFree(old(memMap[..])) || (r.Some? && Topmost(old(View()), View(), r.value))
      ensures Wandered(PresentSet(old(pte)), PresentSet(pte), old(Clock()), if r.Some? then Clock() else stuckAt)
      ensures PresentSet(pte) == PresentSet(old(pte)) ==> pte == old(pte)
    {
      hide Inv, Calm, HeldSet, Sees, Wandered, PresentSet, WentOut, Stuck, Took, Here, NoneFree, TopFree;
      ghost var s0 := View();
      CalmSelf(s0);
      WanderedNot(PresentSet(pte), Clock());
      MapSize(s0);
      while true
        invariant Valid() && Calm(s0, View()) && HeldSet(View()) == HeldSet(s0)
        invariant gaveUp == old(gaveUp) && stuckAt == old(stuckAt)
        invariant Wandered(PresentSet(s0.pte), PresentSet(pte), old(Clock()), Clock())
        invariant PresentSet(pte) == PresentSet(s0.pte) ==> pte == s0.pte
        invariant View() == s0 || NoneFree(s0.memMap)
        decreases |PresentSet(pte)|
      {
        var i := FindFree();
        ghost var s, h := View(), Clock();
        if i >= 0 {
          Allot(i);
          CalmTrans(s0, s, View());
          return Some(i);
        }
        var ok := SwapOutSome();
        CalmTrans(s0, s, View());
        if !ok {
          gaveUp, stuckAt := gaveUp + 1, h;
          return None;
        }
        TookFacts(s, h, pte, Clock());
        ghost var l := Here(dirEntry, pageEntry);
        OneLess(s.pte, pte, l);
        WanderedOn(PresentSet(s0.pte), PresentSet(s.pte), PresentSet(pte), old(Clock()), h, l);
      }
    }

    /** Kernel code returns a frame it owns. */
    method GiveUp(f: nat)
      requires Valid() && IsHeld(View(), f)
      modifies this`role, memMap
      ensures Valid() && SameSights(old(View()), View()) && GivesUp(old(View()), View(), f)
      ensures pte == old(pte) && pgDir == old(pgDir)
    {
      hide FramesOk, SwapOk, CleanOk, Located, GivesUp, Sees;
      GiveBack(View(), f);
      FreePage(f);
    }

    /** The page table for `l` is allocated when it is missing. */
    method NeedTable(l: Loc) returns (ok: bool)
      requires Valid() && l.t in prog && l.d < TASK_DIRS
      modifies this, memMap
      ensures Valid() && Quiet(old(View()), View()) && HeldSet(View()) == HeldSet(old(View()))
      ensures Lost(old(View()), View())
      ensures ok ==> Dir(l.t, l.d) in pgDir && Wandered(PresentSet(old(pte)), PresentSet(pte), old(Clock()), Clock())
      ensures Dir(l.t, l.d) in old(pgDir) ==> ok && View() == old(View())
      ensures gaveUp >= old(gaveUp) && (!ok ==> gaveUp > old(gaveUp))
      ensures CleanPages(pte) <= CleanPages(old(pte))
    {
      hide FramesOk, SwapOk, CleanOk, Located, Calm, GivesUp, Quiet, HeldSet, Sees;
      CalmSelf(View());
      CalmIsQuiet(View(), View());
      var k := Dir(l.t, l.d);
      if k in pgDir {
        LostSelf(View());
        WanderedNot(PresentSet(pte), Clock());
        return true;
      }
      var page := GetFreePage();
      CalmIsQuiet(old(View()), View());
      CalmFacts(old(View()), View());
      if page.None? {
        return false;
      }
      ghost var s := View();
      GiveTable(s, k, page.value);
      pgDir := pgDir[k := page.value];
      role := role[page.value := Table(k)];
      assert View() == AddTable(s, k, page.value);
      TakeAndGive(old(View()), s, View(), page.value);
      return true;
    }

    /** put_page, and with `dirty` put_dirty_page: maps the page `f` at `l`.  put_page refuses a frame that is not in
        memory or whose count is not one; put_dirty_page prints a message and maps it all the same.  Either way all
        is well if and only if the kernel owned the frame. */
    method PutPage(f: nat, l: Loc, dirty: bool) returns (ok: bool)
      requires Valid() && l.t in prog && l.d < TASK_DIRS && l.e < 1024 && l !in pte
      requires IsHeld(View(), f) && !dirty ==> At(mem, f) == Initial(prog, files, l)
      modifies this, memMap
      ensures Valid() <==> !ok || old(IsHeld(View(), f))
      ensures ok ==> l in pte && pte[l] == Present(f, true, dirty)
      ensures ok && old(IsHeld(View(), f)) ==>
                GivesUp(old(View()), View(), f) && SameElsewhere(old(View()), View(), l)
                  && Sees(View(), l) == old(At(mem, f))
      ensures !ok ==> Quiet(old(View()), View()) && HeldSet(View()) == HeldSet(old(View()))
      ensures !dirty && !(f < high && f < memMap.Length && old(memMap[..])[f] == 1) ==> !ok
      ensures gaveUp >= old(gaveUp) && (!ok && (dirty || old(IsHeld(View(), f))) ==> gaveUp > old(gaveUp))
      ensures CleanPages(pte) <= CleanPages(old(pte)) + {l}
    {
      hide FramesOk, SwapOk, CleanOk, Located, Calm, GivesUp, Quiet, Sees;
      ghost var s0 := View();
      CalmSelf(s0);
      CalmIsQuiet(s0, s0);
      if IsHeld(s0, f) { HeldFacts(s0, f); }
      if !dirty {
        if f >= high {
          return false;
        }
        if memMap[f] != 1 {
          return false;
        }
      }
      ok := NeedTable(l);
      if ok {
        QuietFacts(s0, View());
        MapPage(f, l, dirty, s0);
      }
    }

    /** The stores of put_page and put_dirty_page. */
    method MapPage(f: nat, l: Loc, dirty: bool, ghost s0: Mm)
      requires Valid() && Quiet(s0, View()) && HeldSet(View()) == HeldSet(s0)
      requires l.t in prog && Place(View(), l) && l !in pte
      requires IsHeld(s0, f) && !dirty ==> At(s0.mem, f) == Initial(prog, files, l)
      modifies this`pte, this`role
      ensures Valid() <==> IsHeld(s0, f)
      ensures IsHeld(s0, f) ==>
                GivesUp(s0, View(), f) && SameElsewhere(s0, View(), l) && Sees(View(), l) == At(s0.mem, f)
      ensures pte == old(pte)[l := Present(f, true, dirty)]
    {
      hide Inv, GivesUp, Quiet, Sees, Initial;
      ghost var s := View();
      if IsHeld(s0, f) {
        QuietHeld(s0, s, f);
        GivePage(s, l, f, dirty);
        role := role[f := Solo(l)];
      } else {
        assert f !in HeldSet(s0) && f !in HeldSet(s);
        MapUnheld(s, l, f, dirty);
      }
      pte := pte[l := Present(f, true, dirty)];
      if IsHeld(s0, f) {
        assert View() == Map(s, l, f, dirty);
        GiveAfter(s0, s, View(), f, l);
      } else {
        assert View() == s.(pte := s.pte[l := Present(f, true, dirty)]);
      }
    }

    /** get_empty_page */
    method GetEmptyPage(l: Loc) returns (r: Outcome)
      requires Valid() && l.t in prog && l.d < TASK_DIRS && l.e < 1024 && l !in pte
      requires Initial(prog, files, l) == Zeros(PAGE_SIZE)
      modifies this, memMap
      ensures Valid() && Quiet(old(View()), View()) && HeldSet(View()) == HeldSet(old(View()))
      ensures r.Done? ==> l in pte && pte[l].Present? && pte[l].rw
      ensures gaveUp >= old(gaveUp) && (r.OutOfMemory? ==> gaveUp > old(gaveUp))
      ensures CleanPages(pte) <= CleanPages(old(pte)) + {l}
    {
      hide FramesOk, SwapOk, CleanOk, Located, Calm, GivesUp, Quiet, HeldSet, Initial, Sees;
      var page := GetFreePage();
      CalmIsQuiet(old(View()), View());
      CalmFacts(old(View()), View());
      if page.None? {
        return OutOfMemory;
      }
      ghost var s := View();
      var ok := PutPage(page.value, l, false);
      if !ok {
        ghost var s1 := View();
        QuietHeld(s, s1, page.value);
        GiveUp(page.value);
        QuietTrans(old(View()), s, s1);
        TakeAndGive(old(View()), s1, View(), page.value);
        return OutOfMemory;
      }
      SightsWithin(s, View(), l, page.value);
      TakeAndGive(old(View()), s, View(), page.value);
      return Done;
    }

    /** The stores of swap_in for the frame it has got. */
    method TakeBack(l: Loc, page: nat)
      requires Valid() && l in pte && pte[l].Swapped? && IsHeld(View(), page)
      modifies this
      ensures Valid() && SameSights(old(View()), View()) && GivesUp(old(View()), View(), page)
      ensures pte == old(pte)[l := Present(page, true, true)] && gaveUp == old(gaveUp)
      ensures CleanPages(pte) <= CleanPages(old(pte)) + {l}
    {
      hide FramesOk, SwapOk, CleanOk, Located, GivesUp, SameSights, IsHeld;
      ghost var s := View();
      GiveSwapIn(s, l, page);
      var swapNr := pte[l].slot;
      mem := mem[page := swap[swapNr]];
      swapMap := swapMap[swapNr := true];
      pte := pte[l := Present(page, true, true)];
      role := role[page := Solo(l)];
      slotOf := slotOf - {swapNr};
      assert View() == SwapIn(s, l, page);
    }

    /** swap_in */
    method SwapInPage(l: Loc) returns (r: Outcome)
      requires Valid() && l in pte && pte[l].Swapped?
      modifies this, memMap
      ensures Valid() && Quiet(old(View()), View()) && HeldSet(View()) == HeldSet(old(View()))
      ensures r.Done? ==> l in pte && pte[l].Present? && pte[l].rw && pte[l].dirty
      ensures gaveUp >= old(gaveUp) && (r.OutOfMemory? ==> gaveUp > old(gaveUp))
      ensures CleanPages(pte) <= CleanPages(old(pte)) + {l}
    {
      hide Inv, Calm, GivesUp, Quiet, HeldSet, IsHeld, Sees, SameSights, NoneFree, Topmost, Stuck, Wandered;
      var page := GetFreePage();
      CalmIsQuiet(old(View()), View());
      CalmFacts(old(View()), View());
      if page.None? {
        return OutOfMemory;
      }
      ghost var s := View();
      TakeBack(l, page.value);
      TakeAndGive(old(View()), s, View(), page.value);
      return Done;
    }

    /** A page got in advance is not needed after all. */
    method GiveSpare(newPage: Option<nat>, ghost s0: Mm)
      requires Valid() && Quiet(s0, View()) && Spare(s0, View(), newPage)
      modifies this`role, memMap
      ensures Valid() && Quiet(s0, View()) && HeldSet(View()) == HeldSet(s0) && pte == old(pte) && pgDir == old(pgDir)
    {
      hide FramesOk, SwapOk, CleanOk, Located, Calm, GivesUp, Quiet, Sees;
      ghost var s := View();
      if newPage.Some? {
        GiveUp(newPage.value);
        TakeAndGive(s0, s, View(), newPage.value);
      }
    }

    /** The last task that maps a page may write to it. */
    method MakeWritable(l: Loc)
      requires Valid() && l in pte && pte[l].Present? && pte[l].frame < memMap.Length && memMap[pte[l].frame] == 1
      modifies this`pte, this`role
      ensures Valid() && Quiet(old(View()), View()) && HeldSet(View()) == HeldSet(old(View()))
      ensures l in pte && pte[l].Present? && pte[l].rw
      ensures CleanPages(pte) <= CleanPages(old(pte)) + {l}
    {
      hide FramesOk, SwapOk, CleanOk, Located, Calm, GivesUp, Quiet, HeldSet, Sees;
      ghost var s := View();
      UnprotectQuiet(s, l);
      pte := pte[l := pte[l].(rw := true)];
      role := role[pte[l].frame := Solo(l)];
      assert View() == Unprotect(s, l);
    }

    /** `l` gets a copy of its page. */
    method CopyPage(l: Loc, newPage: nat)
      requires Valid() && l in pte && pte[l].Present? && IsHeld(View(), newPage)
      modifies this, memMap
      ensures Valid() && SameSights(old(View()), View()) && GivesUp(old(View()), View(), newPage) && pgDir == old(pgDir)
      ensures l in pte && pte[l].Present? && pte[l].rw && gaveUp == old(gaveUp)
      ensures CleanPages(pte) <= CleanPages(old(pte)) + {l}
    {
      hide FramesOk, SwapOk, CleanOk, Located, Calm, GivesUp, Quiet, Sees;
      ghost var s := View();
      var oldPage := pte[l].frame;
      GiveCopy(s, l, newPage);
      mem := mem[newPage := mem[oldPage]];
      pte := pte[l := Present(newPage, true, pte[l].dirty)];
      role := role[newPage := Solo(l)];
      FreePage(oldPage);
      CopyView(s, l, newPage);
      assert View() == CopyOnWrite(s, l, newPage);
    }

    /** un_wp_page: `l` becomes writable, by a copy while others map its frame.  Making room for
        the copy may take the page itself away; then there is nothing left to do. */
    method UnWpPage(l: Loc) returns (r: Outcome)
      requires Valid()
      modifies this, memMap
      ensures Valid() && Quiet(old(View()), View()) && HeldSet(View()) == HeldSet(old(View()))
      ensures pgDir == old(pgDir)
      ensures r.Done? ==> l in pte && pte[l].Present? ==> pte[l].rw
      ensures gaveUp >= old(gaveUp) && (r.OutOfMemory? ==> gaveUp > old(gaveUp))
      ensures r.Done? && !(l in pte && pte[l].Present?) ==>
                Wandered(PresentSet(old(pte)), PresentSet(pte), old(Clock()), Clock())
      ensures CleanPages(pte) <= CleanPages(old(pte)) + {l}
    {
      hide Inv, Calm, GivesUp, Quiet, HeldSet, IsHeld, Sees, Spare, Wandered, PresentSet, CleanPages, Stuck, NoneFree;
      hide Topmost;
      ghost var s0 := View();
      CalmSelf(s0);
      CalmIsQuiet(s0, s0);
      SpareNone(s0);
      WanderedNot(PresentSet(pte), Clock());
      var newPage: Option<nat> := None;
      while true
        invariant Valid() && Quiet(s0, View()) && Spare(s0, View(), newPage) && pgDir == old(pgDir)
        invariant gaveUp == old(gaveUp) && Wandered(PresentSet(old(pte)), PresentSet(pte), old(Clock()), Clock())
        invariant newPage.None? ==> pte == old(pte) && Clock() == old(Clock())
        invariant CleanPages(pte) <= CleanPages(old(pte))
        decreases newPage.None?
      {
        ghost var s := View();
        if l !in pte || pte[l].Swapped? {
          GiveSpare(newPage, s0);
          return Done;
        }
        EntryFacts(s, l);
        MapSize(s);
        var oldPage := pte[l].frame;
        if memMap[oldPage] == 1 {
          MakeWritable(l);
          QuietTrans(s0, s, View());
          SpareKept(s0, s, View(), newPage);
          GiveSpare(newPage, s0);
          return Done;
        }
        if newPage.None? {
          newPage := GetFreePage();
          CalmIsQuiet(s, View());
          CalmFacts(s, View());
          QuietTrans(s0, s, View());
          SpareTaken(s0, s, View(), newPage);
          if newPage.None? {
            return OutOfMemory;
          }
        } else {
          SpareFacts(s0, s, newPage);
          CopyPage(l, newPage.value);
          TakeAndGive(s0, s, View(), newPage.value);
          return Done;
        }
      }
    }

    /** try_to_share: a clean page of task `from.t` becomes a page of the faulting task as well. */
    method TryToShare(from: Loc, l: Loc) returns (ok: bool)
      requires Valid() && l !in pte && Dir(l.t, l.d) in pgDir && l.e < 1024 && l.t in prog
      requires from == Loc(from.t, l.d, l.e) && from.t in prog
      modifies this, memMap
      ensures ok <==> CleanHere(old(pte), from)
      ensures ok ==> old(pte)[from].frame < |old(memMap[..])| && View() == Share(old(View()), from, l)
      ensures !ok ==> View() == old(View())
      ensures gaveUp == old(gaveUp) && Clock() == old(Clock())
    {
      hide Inv, Sees;
      if Dir(from.t, from.d) !in pgDir {
        NoTableNoEntry(View(), from);
        return false;
      }
      if from !in pte || !pte[from].Present? || pte[from].dirty {
        return false;
      }
      ghost var s := View();
      ShareExact(s, from, l);
      var frame := pte[from].frame;
      pte := pte[from := pte[from].(rw := false)];
      pte := pte[l := pte[from]];
      role := role[frame := Shared(l.d, l.e)];
      memMap[frame] := memMap[frame] + 1;
      assert View() == Share(s, from, l);
      return true;
    }

    /** share_page: looks for a task that runs the same executable or uses the same library and has the page clean in
        memory.  `now` is what the tasks' executable and library fields say; `iCount` is the i_count of the inode.
        `misled` is no part of the code: it says whether the page found is another one than was asked for. */
    method SharePage(inode: nat, l: Loc, iCount: nat, now: map<nat, Prog>) returns (ok: bool, misled: bool)
      requires Valid() && l !in pte && Dir(l.t, l.d) in pgDir && l.e < 1024 && l.t in prog
      requires now.Keys == prog.Keys && inode == Backing(now[l.t], l.d, l.e)
      modifies this, memMap
      ensures ok <==> iCount >= 2 && inode != 0 && exists t :: Sharer(now, old(pte), l, t)
      ensures if ok then SharedFirst(old(View()), View(), now, l, misled) else View() == old(View()) && !misled
      ensures gaveUp == old(gaveUp) && Clock() == old(Clock())
    {
      hide Inv, Offset, Initial, CleanHere;
      misled := false;
      if iCount < 2 || inode == 0 {
        return false, false;
      }
      ghost var s := View();
      TasksBelow(s);
      var t: int := NR_TASKS - 1;
      while t > 0
        invariant 0 <= t < NR_TASKS && View() == s && gaveUp == old(gaveUp) && Clock() == old(Clock())
        invariant forall u | t < u :: !Sharer(now, pte, l, u)
      {
        if t in now && t != l.t && inode == Backing(now[t], l.d, l.e) {
          misled := Stale(prog, files, l, t);
          ok := TryToShare(Loc(t, l.d, l.e), l);
          if ok {
            assert FirstSharer(now, s.pte, l, t);
            return;
          }
          misled := false;
        }
        t := t - 1;
      }
      ok := false;
    }

    /** The end of do_no_page: a page is read from a file and mapped. */
    method LoadIn(l: Loc, inode: nat, block: nat) returns (r: Outcome)
      requires Valid() && l.t in prog && l.d < TASK_DIRS && l.e < 1024 && l !in pte
      requires inode != 0 && (inode, block) == Source(files, prog[l.t], Offset(l.d, l.e))
      modifies this, memMap
      ensures Valid() && Quiet(old(View()), View()) && HeldSet(View()) == HeldSet(old(View()))
      ensures r.Done? ==> l in pte && pte[l].Present? && pte[l].rw
      ensures gaveUp >= old(gaveUp) && (r.OutOfMemory? ==> gaveUp > old(gaveUp))
      ensures CleanPages(pte) <= CleanPages(old(pte)) + {l}
    {
      hide FramesOk, SwapOk, CleanOk, Located, GivesUp, Quiet, Calm, HeldSet, Sees, Offset, Image, Source, CleanPages;
      hide Wandered, PresentSet, Stuck, NoneFree, Topmost;
      ghost var s := View();
      var page := GetFreePage();
      CalmIsQuiet(s, View());
      CalmFacts(s, View());
      if page.None? {
        return OutOfMemory;
      }
      ghost var s1 := View();
      var bytes := LoadPage(files, prog[l.t], l.d, l.e, inode, block);
      ImageSize(files, prog[l.t], l.d, l.e);
      FillQuiet(s, s1, page.value, bytes);
      mem := mem[page.value := bytes];
      assert View() == Fill(s1, page.value, bytes);
      ghost var s2 := View();
      var ok := PutPage(page.value, l, false);
      if !ok {
        ghost var s3 := View();
        QuietHeld(s2, s3, page.value);
        GiveUp(page.value);
        QuietTrans(s, s2, s3);
        TakeAndGive(s, s3, View(), page.value);
        return OutOfMemory;
      }
      SightsWithin(s2, View(), l, page.value);
      TakeAndGive(s, s2, View(), page.value);
      return Done;
    }

    /** The inode and the block at which do_no_page finds the page at offset `tmp`; inode 0 stands for NULL. */
    method PageSource(tsk: Prog, tmp: nat) returns (inode: nat, block: nat)
      ensures (inode, block) == Source(files, tsk, tmp)
      ensures inode != 0 ==> inode == if tmp < LIBRARY_OFFSET then tsk.executable else tsk.library
    {
      if tmp >= LIBRARY_OFFSET {
        inode := tsk.library;
        block := 1 + (tmp - LIBRARY_OFFSET) / BLOCK_SIZE;
      } else if tmp < EndData(files, tsk.executable) {
        inode := tsk.executable;
        block := 1 + tmp / BLOCK_SIZE;
      } else {
        inode, block := 0, 0;
      }
    }

    /** The rest of do_no_page for a page of a file: another task's, or read from the file. */
    method FetchPage(l: Loc, inode: nat, block: nat, isCurrent: bool, iCount: nat, now: map<nat, Prog>)
      returns (r: Outcome, misled: bool)
      requires Valid() && l.t in prog && l.d < TASK_DIRS && l.e < 1024 && l !in pte && Dir(l.t, l.d) in pgDir
      requires now.Keys == prog.Keys && inode == Backing(now[l.t], l.d, l.e)
      requires inode != 0 && (inode, block) == Source(files, prog[l.t], Offset(l.d, l.e))
      modifies this, memMap
      ensures HeldSet(View()) == HeldSet(old(View()))
      ensures if misled then SharedFirst(old(View()), View(), now, l, true) && r.Done?
              else Valid() && Quiet(old(View()), View())
      ensures isCurrent && iCount >= 2 ==> (misled <==> StaleFirst(old(View()), now, l))
      ensures r.Done? ==> l in pte && pte[l].Present?
      ensures r.Done? && !pte[l].rw ==> PresentSet(pte) - {l} == PresentSet(old(pte)) && Clock() == old(Clock())
      ensures gaveUp >= old(gaveUp) && (r.OutOfMemory? ==> gaveUp > old(gaveUp))
      ensures CleanPages(pte) <= CleanPages(old(pte)) + {l}
    {
      hide Inv, Quiet, HeldSet, Sees, Offset, Image, PresentSet, SharedFirst, StaleFirst, Sharer, Source, CleanPages;
      misled := false;
      ghost var s := View();
      if isCurrent {
        var ok;
        ok, misled := SharePage(inode, l, iCount, now);
        if ok {
          QuietSelf(s);
          SharedFacts(s, s, View(), now, l, misled);
          return Done, misled;
        }
        NoSharer(s, now, l, iCount);
      }
      r := LoadIn(l, inode, block);
    }

    /** do_no_page: brings in the page at `l`, which is not in memory.  It is misled when share_page is. */
    method DoNoPage(l: Loc, isCurrent: bool, iCount: nat, now: map<nat, Prog>) returns (r: Outcome, misled: bool)
      requires Valid() && l.t in prog && l.d < TASK_DIRS && l.e < 1024
      requires l in pte ==> pte[l].Swapped?
      requires now.Keys == prog.Keys && now[l.t] == prog[l.t]
      modifies this, memMap
      ensures HeldSet(View()) == HeldSet(old(View()))
      ensures if misled then Misleads(old(View()), now, l) && Strayed(old(View()), View(), l)
              else Valid() && Quiet(old(View()), View())
      ensures misled ==> r.Done? && CleanHere(pte, l) && pte[l].frame in mem
      ensures isCurrent && AsksToShare(old(View()), l, iCount) ==>
                (misled <==> StaleFirst(old(View()), now, l))
      ensures r.Done? ==> l in pte && pte[l].Present?
      ensures r.Done? && !misled && l !in old(pte) ==> Untouched(At(mem, pte[l].frame), files, prog[l.t], l.d, l.e)
      ensures r.Done? && !misled && !pte[l].rw ==>
                Wandered(PresentSet(old(pte)), PresentSet(pte) - {l}, old(Clock()), Clock())
      ensures gaveUp >= old(gaveUp) && (r.OutOfMemory? ==> gaveUp > old(gaveUp))
      ensures CleanPages(pte) <= CleanPages(old(pte)) + {l}
    {
      hide Inv, Quiet, HeldSet, Sees, Offset, Image, Wandered, PresentSet, SharedFirst, Strayed, Stale, StaleFirst;
      hide Misleads, Sharer, Untouched, Source, FirstSharer, CleanPages, CleanHere;
      misled := false;
      ghost var s0 := View();
      if l in pte {
        r := SwapInPage(l);
        return;
      }
      var ok := NeedTable(l);
      if !ok {
        return OutOfMemory, false;
      }
      ghost var s := View();
      QuietFacts(s0, s);
      var inode, block := PageSource(now[l.t], Offset(l.d, l.e));
      if inode == 0 {
        NoInodeNoBytes(files, prog[l.t], l.d, l.e);
        r := GetEmptyPage(l);
        QuietTrans(s0, s, View());
        if r.Done? { BroughtIn(s0, View(), l); }
        return;
      }
      r, misled := FetchPage(l, inode, block, isCurrent, iCount, now);
      if misled {
        SharedFacts(s0, s, View(), now, l, misled);
      } else {
        QuietTrans(s0, s, View());
        if r.Done? { BroughtIn(s0, View(), l); }
      }
    }

    /** free_page_tables: `n` page directory entries of task `t` from `first` on.  (The directory
        entry is cleared with its table here, not before the table's entries.) */
    method FreePageTables(t: nat, first: nat, n: nat)
      requires Valid()
      modifies this, memMap
      ensures Valid() && Cleared(old(View()), View(), t, first, first + n, 0) && gaveUp == old(gaveUp)
    {
      hide FramesOk, SwapOk, CleanOk, Located, Cleared, Sees;
      ghost var s := View();
      ClearedSelf(s, t, first);
      var d := first;
      while d < first + n
        invariant first <= d <= first + n && Valid() && Cleared(s, View(), t, first, d, 0) && gaveUp == old(gaveUp)
      {
        var k := Dir(t, d);
        var e := 0;
        while e < 1024
          invariant e <= 1024 && Valid() && Cleared(s, View(), t, first, d, e) && gaveUp == old(gaveUp)
        {
          FreeEntry(Loc(t, d, e), s, first);
          e := e + 1;
        }
        ClearTable(s, View(), t, first, d);
        if k in pgDir {
          ghost var s1 := View();
          var table := pgDir[k];
          pgDir := pgDir - {k};
          FreePage(table);
          assert View() == DropTable(s1, k);
        }
        d := d + 1;
      }
    }

    /** An entry is cleared, and its page or slot given up. */
    method ForgetEntry(l: Loc)
      requires l in pte && high <= memMap.Length && (swapMap == [] || |swapMap| == SWAP_BITS)
      requires match pte[l]
               case Present(f, _, _) => f < high && memMap[f] != 0
               case Swapped(n) => 0 < n < |swapMap|
      modifies this, memMap
      ensures View() == Unmap(old(View()), l) && gaveUp == old(gaveUp) && Clock() == old(Clock())
    {
      var page := pte[l];
      pte := pte - {l};
      match page
      case Present(frame, _, _) =>
        FreePage(frame);
      case Swapped(slot) =>
        SwapFree(slot);
        slotOf := slotOf - {slot};
    }

    /** The body of free_page_tables' inner loop. */
    method FreeEntry(l: Loc, ghost s: Mm, ghost first: nat)
      requires Valid() && first <= l.d && Cleared(s, View(), l.t, first, l.d, l.e)
      modifies this, memMap
      ensures Valid() && Cleared(s, View(), l.t, first, l.d, l.e + 1) && gaveUp == old(gaveUp)
    {
      hide Inv, Cleared, Sees, Unmap;
      ghost var s1 := View();
      MapSize(s1);
      ClearEntry(s, s1, l.t, first, l.d, l.e);
      if l in pte {
        ForgetEntry(l);
      }
    }

    /** copy_page_tables: `n` page directory entries, from the first one of task `p` on.  Present
        pages come to be shared read-only; for a swapped-out one the child keeps the slot and the
        parent gets the frame it is read into. */
    method CopyPageTables(p: nat, c: nat, n: nat) returns (ok: bool)
      requires Valid() && Twins(View(), p, c) && n <= TASK_DIRS
      requires forall k | k in pgDir :: k.t != c
      modifies this, memMap
      ensures Valid() && OthersSame(old(View()), View(), c)
      ensures ok ==> AtRow(old(View()), View(), p, c, n)
      ensures gaveUp >= old(gaveUp) && (!ok ==> gaveUp > old(gaveUp))
    {
      hide Inv, Copied, OthersSame, Calm, HeldSet, Sees, CleanPages, Wandered, PresentSet, Stuck, NoneFree, Topmost;
      ghost var s := View();
      AtRowSelf(s, p, c);
      var d := 0;
      while d < n
        invariant d <= n && Valid() && AtRow(s, View(), p, c, d) && gaveUp >= old(gaveUp)
      {
        ghost var s1 := View();
        RowFacts(s, s1, p, c, d, 0);
        if Dir(p, d) !in pgDir {
          CopyNoTable(s, s1, p, c, d);
        } else {
          var table := GetFreePage();
          if table.None? {
            CopiedCalm(s, s1, View(), p, c, d, 0);
            RowFacts(s, View(), p, c, d, 0);
            return false;
          }
          ghost var s2 := View();
          CalmFacts(s1, s2);
          CopyTable(s, s1, s2, p, c, d, table.value);
          pgDir := pgDir[Dir(c, d) := table.value];
          role := role[table.value := Table(Dir(c, d))];
          assert View() == AddTable(s2, Dir(c, d), table.value);
          var e := 0;
          while e < 1024
            invariant e <= 1024 && Valid() && InRow(s, View(), p, c, d, e) && gaveUp >= old(gaveUp)
          {
            ok := CopyEntry(s, p, c, d, e);
            if !ok {
              return false;
            }
            e := e + 1;
          }
          CopyRow(s, View(), p, c, d);
        }
        d := d + 1;
      }
      RowFacts(s, View(), p, c, n, 0);
      return true;
    }

    /** The body of copy_page_tables' inner loop. */
    method CopyEntry(ghost s: Mm, p: nat, c: nat, d: nat, e: nat) returns (ok: bool)
      requires Valid() && Twins(s, p, c) && InRow(s, View(), p, c, d, e) && e < 1024
      modifies this, memMap
      ensures Valid()
      ensures ok ==> InRow(s, View(), p, c, d, e + 1)
      ensures !ok ==> OthersSame(s, View(), c)
      ensures gaveUp >= old(gaveUp) && (!ok ==> gaveUp > old(gaveUp))
    {
      hide Inv, InRow, Copied, OthersSame, Calm, HeldSet, IsHeld, SplitSlot, Sees, CleanPages, Wandered, PresentSet;
      hide Stuck, NoneFree, Topmost;
      ghost var s1 := View();
      var from, to := Loc(p, d, e), Loc(c, d, e);
      if from !in pte {
        CopyNothing(s, s1, p, c, d, e);
        return true;
      }
      if pte[from].Swapped? {
        var newPage := GetFreePage();
        CalmFacts(s1, View());
        if newPage.None? {
          RowCalm(s, s1, View(), p, c, d, e);
          return false;
        }
        ghost var s2 := View();
        CopySwapped(s, s1, s2, p, c, d, e, newPage.value);
        var slot := pte[from].slot;
        mem := mem[newPage.value := swap[slot]];
        pte := pte[to := Swapped(slot)];
        pte := pte[from := Present(newPage.value, true, true)];
        slotOf := slotOf[slot := to];
        role := role[newPage.value := Solo(from)];
        SplitView(s2, from, to, newPage.value);
        assert View() == SplitSlot(s2, from, to, newPage.value);
        return true;
      }
      ShareEntry(s, p, c, d, e);
      return true;
    }

    /** A page in memory comes to be shared, read-only for both. */
    method ShareEntry(ghost s: Mm, p: nat, c: nat, d: nat, e: nat)
      requires Valid() && Twins(s, p, c) && InRow(s, View(), p, c, d, e) && e < 1024
      requires Loc(p, d, e) in pte && pte[Loc(p, d, e)].Present?
      modifies this, memMap
      ensures Valid() && InRow(s, View(), p, c, d, e + 1) && gaveUp == old(gaveUp)
    {
      hide Inv, InRow, Copied, OthersSame, Calm, HeldSet, IsHeld, SplitSlot, Sees, CleanPages, Wandered, PresentSet;
      hide Stuck, NoneFree, Topmost;
      ghost var s1 := View();
      var from, to := Loc(p, d, e), Loc(c, d, e);
      CopyShared(s, s1, p, c, d, e);
      var thisPage := pte[from].(rw := false);
      pte := pte[to := thisPage];
      pte := pte[from := thisPage];
      role := role[thisPage.frame := Shared(d, e)];
      memMap[thisPage.frame] := memMap[thisPage.frame] + 1;
      assert pte == s1.pte[from := thisPage][to := thisPage];
      assert View() == Share(s1, from, to);
    }
  }

  predicate NoneFree(memMap: seq<nat>) {
    forall f | 0 <= f < |memMap| :: memMap[f] != 0
  }

  predicate TopFree(memMap: seq<nat>, f: nat) {
    f < |memMap| && memMap[f] == 0 && forall g | f < g < |memMap| :: memMap[g] != 0
  }

  /** The highest free frame has been taken, and nothing else has changed. */
  ghost predicate Topmost(s: Mm, s': Mm, f: nat) {
    TopFree(s.memMap, f) && s' == Alloc(s, f)
  }

  /** The inode share_page compares: the executable, or in the library area the library. */
  function Backing(p: Prog, d: nat, e: nat): nat {
    if Offset(d, e) < LIBRARY_OFFSET then p.executable else p.library
  }

  /** share_page takes task `t` for one that has the page. */
  predicate Sharer(now: map<nat, Prog>, pte: map<Loc, Pte>, l: Loc, t: nat) {
    && t in now && l.t in now && t != l.t && Backing(now[t], l.d, l.e) == Backing(now[l.t], l.d, l.e)
    && CleanHere(pte, Loc(t, l.d, l.e))
  }

  /** It is the one share_page comes to first. */
  ghost predicate FirstSharer(now: map<nat, Prog>, pte: map<Loc, Pte>, l: Loc, t: nat) {
    Sharer(now, pte, l, t) && forall u | t < u :: !Sharer(now, pte, l, u)
  }

  /** The page of the first sharer has come to be shared. */
  ghost predicate SharedFirst(s: Mm, s': Mm, now: map<nat, Prog>, l: Loc, misled: bool) {
    exists t ::
      && FirstSharer(now, s.pte, l, t) && s.pte[Loc(t, l.d, l.e)].frame < |s.memMap|
      && s' == Share(s, Loc(t, l.d, l.e), l) && (misled <==> Stale(s.prog, s.files, l, t))
  }

  /** Some task that may be taken for one that has the page has another one. */
  ghost predicate Misleads(s: Mm, now: map<nat, Prog>, l: Loc) {
    exists t :: Sharer(now, s.pte, l, t) && Stale(s.prog, s.files, l, t)
  }

  /** do_no_page comes to share_page, with everything in memory as it was. */
  predicate AsksToShare(s: Mm, l: Loc, iCount: nat) {
    && l !in s.pte && Dir(l.t, l.d) in s.dir && iCount >= 2
    && l.t in s.prog && Source(s.files, s.prog[l.t], Offset(l.d, l.e)).0 != 0
  }

  /** A page brought in without anybody seeing a difference holds the bytes the task starts from. */
  lemma BroughtIn(s: Mm, s': Mm, l: Loc)
    requires Inv(s) && Quiet(s, s') && l !in s.pte && l.t in s.prog && l in s'.pte && s'.pte[l].Present?
    ensures s'.prog == s.prog && s'.files == s.files
    ensures Untouched(At(s'.mem, s'.pte[l].frame), s.files, s.prog[l.t], l.d, l.e)
  {
    hide Image, InitialByte, FramesOk, SwapOk, CleanOk, Located;
    ImageUntouched(s.files, s.prog[l.t], l.d, l.e);
    hide Untouched, FilesOk;
    assert Sees(s', l) == Sees(s, l);
  }

  /** The task that share_page comes to first has another page. */
  ghost predicate StaleFirst(s: Mm, now: map<nat, Prog>, l: Loc) {
    exists t :: FirstSharer(now, s.pte, l, t) && Stale(s.prog, s.files, l, t)
  }

  lemma NoSharer(s: Mm, now: map<nat, Prog>, l: Loc, iCount: nat)
    requires iCount >= 2 ==> !exists t :: Sharer(now, s.pte, l, t)
    ensures iCount >= 2 ==> !StaleFirst(s, now, l)
  {
  }

  lemma SharedFacts(s0: Mm, s: Mm, s': Mm, now: map<nat, Prog>, l: Loc, misled: bool)
    requires Inv(s) && Quiet(s0, s) && HeldSet(s) == HeldSet(s0) && CleanPages(s.pte) <= CleanPages(s0.pte)
    requires SharedFirst(s, s', now, l, misled)
    requires l !in s.pte && Place(s, l) && l.t in s.prog && now.Keys == s.prog.Keys
    ensures HeldSet(s') == HeldSet(s0) && CleanHere(s'.pte, l) && !s'.pte[l].rw && s'.pte[l].frame in s'.mem
    ensures PresentSet(s'.pte) - {l} == PresentSet(s.pte)
    ensures misled <==> StaleFirst(s, now, l)
    ensures CleanPages(s'.pte) <= CleanPages(s.pte) + {l}
    ensures if misled then Misleads(s0, now, l) && Strayed(s0, s', l) else Inv(s') && Quiet(s0, s')
  {
    hide Inv, Quiet, HeldSet, Sees, Initial, Strayed, Stale;
    var t :| FirstSharer(now, s.pte, l, t) && s.pte[Loc(t, l.d, l.e)].frame < |s.memMap|
             && s' == Share(s, Loc(t, l.d, l.e), l) && (misled <==> Stale(s.prog, s.files, l, t));
    QuietFacts(s0, s);
    ShareExact(s, Loc(t, l.d, l.e), l);
    assert Loc(t, l.d, l.e) in CleanPages(s.pte);
    assert Sharer(now, s0.pte, l, t);
    if misled { StrayedAfter(s0, s, s', l); } else { QuietTrans(s0, s, s'); }
  }

  lemma StrayedAfter(s0: Mm, s: Mm, s': Mm, l: Loc)
    requires Quiet(s0, s) && Strayed(s, s', l)
    ensures Strayed(s0, s', l)
  {
  }

  lemma TasksBelow(s: Mm)
    requires Inv(s)
    ensures forall t | t in s.prog :: 1 <= t < NR_TASKS
  {
  }

  /** The pages the kernel holds are those of `s0` and perhaps one more. */
  ghost predicate Spare(s0: Mm, s: Mm, newPage: Option<nat>) {
    match newPage
    case None => HeldSet(s) == HeldSet(s0)
    case Some(f) => f !in HeldSet(s0) && IsHeld(s, f) && HeldSet(s) == HeldSet(s0) + {f}
  }

  lemma MapSize(s: Mm)
    requires Inv(s)
    ensures s.high <= |s.memMap| == PAGING_PAGES && (s.swapMap == [] || |s.swapMap| == SWAP_BITS)
  {
  }

  lemma SpareNone(s: Mm)
    ensures Spare(s, s, None)
  {
  }

  lemma SpareFacts(s0: Mm, s: Mm, newPage: Option<nat>)
    requires Spare(s0, s, newPage) && newPage.Some?
    ensures newPage.value !in HeldSet(s0) && IsHeld(s, newPage.value) && HeldSet(s) == HeldSet(s0) + {newPage.value}
  {
  }

  lemma SpareTaken(s0: Mm, s: Mm, s': Mm, newPage: Option<nat>)
    requires Spare(s0, s, None)
    requires if newPage.None? then HeldSet(s') == HeldSet(s)
             else
               && newPage.value !in HeldSet(s) && HeldSet(s') == HeldSet(s) + {newPage.value}
               && IsHeld(s', newPage.value)
    ensures Spare(s0, s', newPage) && (newPage.None? ==> HeldSet(s') == HeldSet(s0))
  {
  }

  lemma SpareKept(s0: Mm, s: Mm, s': Mm, newPage: Option<nat>)
    requires Spare(s0, s, newPage) && Quiet(s, s') && HeldSet(s') == HeldSet(s)
    ensures Spare(s0, s', newPage)
  {
  }


  lemma FileSlice(files: Files, inode: nat, first: nat, i: nat)
    requires FilesOk(files) && i < 4
    ensures |FilePage(files, inode, first)| == PAGE_SIZE
    ensures FilePage(files, inode, first)[BLOCK_SIZE * i..BLOCK_SIZE * (i + 1)] == FileBlock(files, inode, first + i)
  {
  }

  /** bread_page: four blocks of a file into a zeroed page. */
  method ReadBlocks(files: Files, inode: nat, first: nat) returns (page: Page)
    requires FilesOk(files)
    ensures page == FilePage(files, inode, first) && |page| == PAGE_SIZE
  {
    page := Zeros(PAGE_SIZE);
    ghost var whole := FilePage(files, inode, first);
    var block, i := first, 0;
    FileSlice(files, inode, first, 0);
    hide FilePage;
    while i < 4
      invariant 0 <= i <= 4 && block == first + i && |page| == PAGE_SIZE
      invariant page[..BLOCK_SIZE * i] == whole[..BLOCK_SIZE * i]
      invariant forall j | BLOCK_SIZE * i <= j < PAGE_SIZE :: page[j] == 0
    {
      if (inode, block) in files.block {
        page := Patch(page, BLOCK_SIZE * i, files.block[(inode, block)]);
      }
      FileSlice(files, inode, first, i);
      assert page[BLOCK_SIZE * i..BLOCK_SIZE * (i + 1)] == FileBlock(files, inode, block);
      JoinPrefix(page, whole, BLOCK_SIZE * i, BLOCK_SIZE * (i + 1));
      block, i := block + 1, i + 1;
    }
    assert page == page[..PAGE_SIZE] && whole == whole[..PAGE_SIZE];
  }

  /** COPYBLK: `part` replaces what stood from `at` on. */
  function Patch(page: Page, at: nat, part: seq<Byte>): (r: Page)
    requires at + |part| <= |page|
    ensures |r| == |page| && r[..at] == page[..at] && r[at..at + |part|] == part
    ensures forall j | at + |part| <= j < |page| :: r[j] == page[j]
  {
    var r := page[..at] + part + page[at + |part|..];
    assert r[..at] == page[..at];
    r
  }

  lemma JoinPrefix<T>(a: seq<T>, b: seq<T>, i: nat, j: nat)
    requires i <= j <= |a| && j <= |b| && a[..i] == b[..i] && a[i..j] == b[i..j]
    ensures a[..j] == b[..j]
  {
  }

  /** The page of a file that do_no_page maps: what lies past end_data is cleared. */
  method LoadPage(files: Files, p: Prog, d: nat, e: nat, inode: nat, first: nat) returns (page: Page)
    requires FilesOk(files) && inode != 0 && (inode, first) == Source(files, p, Offset(d, e))
    ensures page == Image(files, p, d, e)
  {
    page := ReadBlocks(files, inode, first);
    ghost var whole := page;
    var i: int := Offset(d, e) + PAGE_SIZE - EndData(files, p.executable);
    if i > 4095 {
      i := 0;
    }
    var tmp := PAGE_SIZE;
    ghost var tail := Tail(files, p, Offset(d, e));
    while i > 0
      invariant i <= tail && (tail > 0 ==> i >= 0) && tmp == PAGE_SIZE - tail + (if i < 0 then 0 else i)
      invariant |page| == PAGE_SIZE
      invariant page[..tmp] == whole[..tmp] && page[tmp..] == Zeros(PAGE_SIZE - tmp)
    {
      i := i - 1;
      tmp := tmp - 1;
      page := page[tmp := 0];
    }
    assert page == page[..tmp] + page[tmp..];
  }
}
