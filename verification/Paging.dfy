/** Virtual memory as a value: frames, page tables, the reference counts of `mem_map`, the
    swap bitmap and the swap area, and what each change the kernel makes to a page-table
    entry does to them (mm/memory.c, mm/swap.c).  The kernel code itself is the class
    `PagingKernel.Memory`; every change it makes is one of the steps proved here. */
module Paging {
  import opened Kernel

  type Page = seq<Byte>

  const PAGING_PAGES := 3840
  /** The `mem_map` value of a frame that is never handed out. */
  const USED := 100
  const SWAP_BITS := 32768
  const TASK_SIZE := 0x400_0000
  const LIBRARY_SIZE := 0x40_0000
  const LIBRARY_OFFSET := TASK_SIZE - LIBRARY_SIZE
  /** Page-directory entries of one task: TASK_SIZE >> 22. */
  const TASK_DIRS := 16

  /** A page-table entry by the place of its word: page-directory entry 16 * t + d, word e. */
  datatype Loc = Loc(t: nat, d: nat, e: nat)

  /** Page-directory entry 16 * t + d. */
  datatype Dir = Dir(t: nat, d: nat)

  /** A nonzero page-table entry. */
  datatype Pte =
    | Swapped(slot: nat)
    | Present(frame: nat, rw: bool, dirty: bool)

  /** The inodes a task was loaded from; 0 is NULL. */
  datatype Prog = Prog(executable: nat, library: nat)

  /** File contents, which do not change: block `b` of inode `i` is `block[(i, b)]`, absent when
      `bmap` finds a hole; `endData[i]` is the end_data a task gets when it executes `i`. */
  datatype Files = Files(block: map<(nat, nat), seq<Byte>>, endData: map<nat, nat>)

  /** What a frame in use is for.  A user page is mapped by one entry (`Solo`) or by read-only
      entries at one offset of several tasks (`Shared`). */
  datatype Role =
    | Held                         // owned by kernel code: a task structure, a page being filled
    | Table(k: Dir)
    | Solo(l: Loc)
    | Shared(d: nat, e: nat)

  /** Frames are numbered as `mem_map` numbers them: frame f is the page at LOW_MEM + 4096 * f.
      The last two fields record, for the invariant, what frames and swap slots are used for. */
  datatype Mm = Mm(
    start: nat, high: nat,         // usable frames: MAP_NR(start_mem) .. MAP_NR(HIGH_MEMORY)
    memMap: seq<nat>,
    mem: map<nat, Page>,           // what each frame holds
    dir: map<Dir, nat>,            // page directory: frame of the page table
    pte: map<Loc, Pte>,            // nonzero page-table entries
    swapMap: seq<bool>,            // swap bitmap, true = free; empty while swap_bitmap is NULL
    swap: map<nat, Page>,          // swap area
    prog: map<nat, Prog>,          // live tasks
    files: Files,
    usable: set<nat>,              // slots the swap signature page listed as usable
    role: map<nat, Role>,
    slotOf: map<nat, Loc>)

  // ---------------------------------------------------------------- initial page contents

  ghost predicate FilesOk(files: Files) {
    && (forall k | k in files.block :: |files.block[k]| == BLOCK_SIZE)
    && (forall i | i in files.endData :: files.endData[i] <= 0x300_0000)
  }

  function EndData(files: Files, executable: nat): nat {
    if executable in files.endData then files.endData[executable] else 0
  }

  function FileBlock(files: Files, inode: nat, b: nat): seq<Byte> {
    if (inode, b) in files.block then files.block[(inode, b)] else Zeros(BLOCK_SIZE)
  }

  function FilePage(files: Files, inode: nat, b: nat): Page {
    FileBlock(files, inode, b) + FileBlock(files, inode, b + 1)
    + FileBlock(files, inode, b + 2) + FileBlock(files, inode, b + 3)
  }

  function Offset(d: nat, e: nat): nat {
    d * 0x40_0000 + e * PAGE_SIZE
  }

  /** The inode and the first block `do_no_page` loads the page at offset `off` from. */
  function Source(files: Files, p: Prog, off: nat): (nat, nat) {
    if off >= LIBRARY_OFFSET then (p.library, 1 + (off - LIBRARY_OFFSET) / BLOCK_SIZE)
    else if off < EndData(files, p.executable) then (p.executable, 1 + off / BLOCK_SIZE)
    else (0, 0)
  }

  /** How many bytes at the end of a loaded page lie past end_data. */
  function Tail(files: Files, p: Prog, off: nat): (n: nat)
    ensures n < PAGE_SIZE
  {
    var i := off + PAGE_SIZE - EndData(files, p.executable);
    if i > 4095 || i < 0 then 0 else i
  }

  /** What a task finds at a page it never touched: its executable, its library, or zeros. */
  function Image(files: Files, p: Prog, d: nat, e: nat): Page {
    var off := Offset(d, e);
    var (inode, b) := Source(files, p, off);
    if inode == 0 then Zeros(PAGE_SIZE)
    else
      var page := FilePage(files, inode, b);
      if |page| != PAGE_SIZE then page
      else page[..PAGE_SIZE - Tail(files, p, off)] + Zeros(Tail(files, p, off))
  }

  lemma ImageSize(files: Files, p: Prog, d: nat, e: nat)
    requires FilesOk(files)
    ensures |Image(files, p, d, e)| == PAGE_SIZE
  {
  }

  /** The byte at position `pos` of a file. */
  function FileByte(files: Files, inode: nat, pos: nat): Byte
    requires FilesOk(files)
  {
    var (block, i) := (pos / 1024, pos % 1024);
    if (inode, block) in files.block then files.block[(inode, block)][i] else 0
  }

  /** The byte at address `x` of a task that has not been touched there: below end_data that of the executable behind
      its header block, in the library area that of the library behind its header block, zero everywhere else. */
  function InitialByte(files: Files, p: Prog, x: nat): Byte
    requires FilesOk(files)
  {
    if x >= LIBRARY_OFFSET then
      if p.library == 0 then 0 else FileByte(files, p.library, 1024 + x - LIBRARY_OFFSET)
    else if p.executable != 0 && p.executable in files.endData && x < files.endData[p.executable] then
      FileByte(files, p.executable, 1024 + x)
    else 0
  }

  /** The pages that do_no_page loads hold those bytes. */
  lemma ImageBytes(files: Files, p: Prog, d: nat, e: nat, i: nat)
    requires FilesOk(files) && i < PAGE_SIZE
    ensures |Image(files, p, d, e)| == PAGE_SIZE
    ensures Image(files, p, d, e)[i] == InitialByte(files, p, d * 0x40_0000 + e * 4096 + i)
  {
    var off := Offset(d, e);
    var (inode, b) := Source(files, p, off);
    WholeBlocks(off, d, e);
    PageBytes(files, inode, b, i);
    TailStart(files, p, off);
    ImageSize(files, p, d, e);
    hide FilePage, FileBlock, FileByte, FilesOk, Tail, Offset;
  }

  /** A page of a task that never touched it. */
  ghost predicate Untouched(page: Page, files: Files, p: Prog, d: nat, e: nat) {
    && FilesOk(files) && |page| == PAGE_SIZE
    && forall i | 0 <= i < PAGE_SIZE :: page[i] == InitialByte(files, p, d * 0x40_0000 + e * 4096 + i)
  }

  lemma ImageUntouched(files: Files, p: Prog, d: nat, e: nat)
    requires FilesOk(files)
    ensures Untouched(Image(files, p, d, e), files, p, d, e)
  {
    hide Image, InitialByte;
    ImageSize(files, p, d, e);
    forall i | 0 <= i < PAGE_SIZE
      ensures Image(files, p, d, e)[i] == InitialByte(files, p, d * 0x40_0000 + e * 4096 + i)
    {
      ImageBytes(files, p, d, e, i);
    }
  }

  lemma WholeBlocks(off: nat, d: nat, e: nat)
    requires off == Offset(d, e)
    ensures off == d * 0x40_0000 + e * 4096 && (1 + off / 1024) * 1024 == 1024 + off
    ensures off >= LIBRARY_OFFSET ==> (1 + (off - LIBRARY_OFFSET) / 1024) * 1024 == 1024 + off - LIBRARY_OFFSET
  {
    assert off == 1024 * (d * 4096 + e * 4);
  }

  /** Only the page that contains end_data has a tail that is cleared. */
  lemma TailStart(files: Files, p: Prog, off: nat)
    requires FilesOk(files)
    ensures EndData(files, p.executable) < LIBRARY_OFFSET
    ensures var end := EndData(files, p.executable);
            off >= LIBRARY_OFFSET || off < end ==>
              Tail(files, p, off) == if off < end < off + PAGE_SIZE then off + PAGE_SIZE - end else 0
  {
  }

  lemma PageBytes(files: Files, inode: nat, b: nat, i: nat)
    requires FilesOk(files) && i < PAGE_SIZE
    ensures |FilePage(files, inode, b)| == PAGE_SIZE
    ensures FilePage(files, inode, b)[i] == FileByte(files, inode, b * 1024 + i)
  {
    var k := i / 1024;
    assert (b * 1024 + i) / 1024 == b + k && (b * 1024 + i) % 1024 == i % 1024;
    assert FileByte(files, inode, b * 1024 + i) == FileBlock(files, inode, b + k)[i % 1024];
    hide FileByte;
  }

  // ---------------------------------------------------------------- what a task sees

  function At(m: map<nat, Page>, k: nat): Page {
    if k in m then m[k] else []
  }

  function Initial(prog: map<nat, Prog>, files: Files, l: Loc): Page {
    if l.t in prog then Image(files, prog[l.t], l.d, l.e) else []
  }

  /** The bytes task `l.t` reads at page `l`, after whatever faults the access needs. */
  function Sees(s: Mm, l: Loc): Page {
    if l !in s.pte then Initial(s.prog, s.files, l)
    else match s.pte[l]
      case Swapped(slot) => At(s.swap, slot)
      case Present(frame, _, _) => At(s.mem, frame)
  }

  // ---------------------------------------------------------------- the invariant

  predicate Maps(p: Pte, f: nat) { p.Present? && p.frame == f }

  /** The entries that map frame `f`. */
  function Refs(pte: map<Loc, Pte>, f: nat): set<Loc> {
    set l | l in pte && Maps(pte[l], f)
  }

  ghost predicate Shape(s: Mm) {
    && |s.memMap| == PAGING_PAGES
    && s.start <= s.high <= PAGING_PAGES
    && (s.swapMap == [] || |s.swapMap| == SWAP_BITS)
    && FilesOk(s.files)
    && (forall f | s.start <= f < s.high :: f in s.mem && |s.mem[f]| == PAGE_SIZE)
    && (forall t | t in s.prog :: 1 <= t < NR_TASKS)
  }

  /** Page-table entries belong to live tasks and lie in page tables that exist. */
  ghost predicate Located(dir: map<Dir, nat>, pte: map<Loc, Pte>, prog: map<nat, Prog>) {
    && (forall k | k in dir :: k.t in prog && k.d < TASK_DIRS)
    && (forall l | l in pte :: Dir(l.t, l.d) in dir && l.e < 1024)
  }

  ghost predicate Fits(l: Loc, p: Pte, role: map<nat, Role>) {
    p.Present? ==> p.frame in role && (role[p.frame] == Solo(l) || (!p.rw && role[p.frame] == Shared(l.d, l.e)))
  }

  /** Every frame has at most one use; an entry is writable only if no other maps its frame. */
  ghost predicate RolesOk(start: nat, high: nat, role: map<nat, Role>, dir: map<Dir, nat>, pte: map<Loc, Pte>) {
    && (forall f | f in role :: start <= f < high)
    && (forall k | k in dir :: dir[k] in role && role[dir[k]] == Table(k))
    && (forall f | f in role && role[f].Table? :: role[f].k in dir && dir[role[f].k] == f)
    && (forall l | l in pte :: Fits(l, pte[l], role))
  }

  /** `mem_map` counts the owners of every usable frame. */
  ghost predicate Counted(start: nat, high: nat, memMap: seq<nat>, role: map<nat, Role>, pte: map<Loc, Pte>) {
    forall f | 0 <= f < |memMap| ::
      && memMap[f] == (if !(start <= f < high) then USED
                       else if f in role && (role[f].Held? || role[f].Table?) then 1
                       else |Refs(pte, f)|)
      && (start <= f < high ==> (f in role <==> memMap[f] > 0))
  }

  ghost predicate FramesOk(start: nat, high: nat, memMap: seq<nat>, role: map<nat, Role>,
                           dir: map<Dir, nat>, pte: map<Loc, Pte>) {
    && high <= |memMap|
    && RolesOk(start, high, role, dir, pte)
    && Counted(start, high, memMap, role, pte)
  }

  /** Every usable swap slot is either free in the bitmap or named by exactly one entry. */
  ghost predicate SwapOk(swapMap: seq<bool>, swap: map<nat, Page>, usable: set<nat>, slotOf: map<nat, Loc>,
                         pte: map<Loc, Pte>) {
    && (forall n | n in usable :: 1 <= n < |swapMap| && (swapMap[n] <==> n !in slotOf))
    && (forall n | 1 <= n < |swapMap| && swapMap[n] :: n in usable)
    && (forall n | n in slotOf :: n in usable && slotOf[n] in pte && pte[slotOf[n]] == Swapped(n)
                                  && n in swap && |swap[n]| == PAGE_SIZE)
    && (forall l | l in pte && pte[l].Swapped? :: pte[l].slot in slotOf && slotOf[pte[l].slot] == l)
  }

  ghost predicate Fresh(l: Loc, p: Pte, mem: map<nat, Page>, prog: map<nat, Prog>, files: Files) {
    p.Present? && !p.dirty ==> At(mem, p.frame) == Initial(prog, files, l)
  }

  /** A page that was never written since it was loaded still equals its initial image. */
  ghost predicate CleanOk(pte: map<Loc, Pte>, mem: map<nat, Page>, prog: map<nat, Prog>, files: Files) {
    forall l | l in pte :: Fresh(l, pte[l], mem, prog, files)
  }

  ghost predicate Inv(s: Mm) {
    && Shape(s)
    && Located(s.dir, s.pte, s.prog)
    && FramesOk(s.start, s.high, s.memMap, s.role, s.dir, s.pte)
    && SwapOk(s.swapMap, s.swap, s.usable, s.slotOf, s.pte)
    && CleanOk(s.pte, s.mem, s.prog, s.files)
  }

  // ---------------------------------------------------------------- reference counting

  lemma CardinalityMonotone<T>(a: set<T>, b: set<T>)
    requires a <= b
    ensures |a| <= |b|
  {
    assert b == a + (b - a);
  }
}
