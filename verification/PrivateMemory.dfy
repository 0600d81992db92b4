/** The promise of the paging code: every task has a private memory.  `Eager` is the simple model,
    in which fork copies everything at once and there is neither sharing nor swapping; `Machine.Run`
    shows that the kernel's demand loading, page sharing, copying on write and swapping cannot be
    told from it in any run (sys_fork and copy_mem of kernel/fork.c, exit, exec, uselib, and the
    user's own loads and stores). */
module PrivateMemory {
  import opened Kernel
  import opened Wrappers
  import opened Paging
  import opened PagingSteps
  import opened Calmness
  import opened PagingRanges
  import opened PagingKernel
  import opened SwapClock

  // ---------------------------------------------------------------- the simple model

  /** Live tasks, those of them that are inside exec with the executable they change to, and the bytes of every page
      of every task. */
  datatype Eager = Eager(prog: map<nat, Prog>, busy: map<nat, nat>, files: Files, page: Loc -> Page)

  predicate InTask(l: Loc) { l.d < TASK_DIRS && l.e < 1024 }

  /** All pages of task `t` start over from its executable, its library, or zeros. */
  function Restart(w: Eager, t: nat, q: Prog): Eager {
    w.(prog := w.prog[t := q],
       page := (l: Loc) => if l.t == t then Image(w.files, q, l.d, l.e) else w.page(l))
  }

  function Forked(w: Eager, p: nat, c: nat): Eager
    requires p in w.prog
  {
    w.(prog := w.prog[c := w.prog[p]],
       page := (l: Loc) => if l.t == c then w.page(Loc(p, l.d, l.e)) else w.page(l))
  }

  function Written(w: Eager, l: Loc, bytes: Page): Eager {
    w.(page := (m: Loc) => if m == l then bytes else w.page(m))
  }

  /** A new library: the pages of the library area start over, the others stay. */
  function Relinked(w: Eager, t: nat, q: Prog): Eager {
    w.(prog := w.prog[t := q],
       page := (l: Loc) => if l.t == t && l.d == TASK_DIRS - 1 then Image(w.files, q, l.d, l.e) else w.page(l))
  }

  /** The exec of task `t` is over: its pages start from the new executable. */
  function Replaced(w: Eager, t: nat): Eager
    requires t in w.prog && t in w.busy
  {
    Restart(w.(busy := w.busy - {t}), t, w.prog[t].(executable := w.busy[t]))
  }

  predicate Awake(w: Eager, t: nat) {
    t in w.prog && t !in w.busy
  }

  datatype Op =
    | Spawn(q: Prog)                     // a task that maps nothing yet: task 1 after its first exec
    | Fork(p: nat)
    | Exit(t: nat)
    | Exec(t: nat, executable: nat)      // current->executable is set; closing files may put the task to sleep
    | ExecEnd(t: nat)                    // its page tables are freed
    | UseLib(t: nat, library: nat)
    | Install(l: Loc, bytes: Page)       // exec puts an argument page in place
    | Load(l: Loc, iCount: nat)
    | Store(l: Loc, i: nat, b: Byte, iCount: nat)
    | SwapOn(signature: bool, bits: seq<bool>)   // sys_swapon, with what the first swap page holds
    | MakeRoom                           // kernel code elsewhere runs out of memory

  /** What the caller learns: nothing happened, a task number, or the bytes read. */
  datatype Answer = Refused | Accepted | Created(c: nat) | Bytes(bytes: Page)

  predicate TaskSlotFree(w: Eager) {
    exists t :: 1 <= t < NR_TASKS && t !in w.prog
  }

  /** What a kernel that could always make room may not refuse. */
  predicate Due(w: Eager, op: Op) {
    match op
    case Spawn(_) => TaskSlotFree(w)
    case Fork(p) => Awake(w, p) && TaskSlotFree(w)
    case Exit(t) => Awake(w, t)
    case Exec(t, _) => Awake(w, t)
    case ExecEnd(t) => t in w.prog && t in w.busy
    case UseLib(t, _) => Awake(w, t)
    case Load(l, _) => Awake(w, l.t) && InTask(l)
    case Store(l, i, _, _) => Awake(w, l.t) && InTask(l) && i < PAGE_SIZE
    case MakeRoom => true
    case _ => false
  }

  /** What the simple model does on `op` when the kernel answered `a`; None if it cannot answer so.  `roomy`
      says that the kernel could always make room. */
  function EagerStep(w: Eager, op: Op, a: Answer, roomy: bool): Option<Eager> {
    if a.Refused? then if roomy && Due(w, op) then None else Some(w)
    else match op
      case Spawn(q) => if a.Created? && a.c !in w.prog then Some(Restart(w, a.c, q)) else None
      case Fork(p) => if a.Created? && a.c !in w.prog && Awake(w, p) then Some(Forked(w, p, a.c)) else None
      case Exit(t) => if a.Accepted? && Awake(w, t) then Some(w.(prog := w.prog - {t})) else None
      case Exec(t, x) => if a.Accepted? && Awake(w, t) then Some(w.(busy := w.busy[t := x])) else None
      case ExecEnd(t) => if a.Accepted? && t in w.prog && t in w.busy then Some(Replaced(w, t)) else None
      case UseLib(t, x) =>
        if a.Accepted? && Awake(w, t) then Some(Relinked(w, t, w.prog[t].(library := x))) else None
      case Install(l, bytes) =>
        if a.Accepted? && Awake(w, l.t) && InTask(l) then Some(Written(w, l, bytes)) else None
      case Load(l, _) =>
        if a.Bytes? && Awake(w, l.t) && InTask(l) && a.bytes == w.page(l) then Some(w) else None
      case Store(l, i, b, _) =>
        if a.Accepted? && Awake(w, l.t) && InTask(l) && i < |w.page(l)|
        then Some(Written(w, l, w.page(l)[i := b])) else None
      case SwapOn(_, _) => if a.Accepted? then Some(w) else None
      case MakeRoom => if a.Accepted? then Some(w) else None
  }

  function Replay(w: Eager, ops: seq<Op>, answers: seq<Answer>, roomy: bool): Option<Eager>
    requires |ops| == |answers|
    decreases |ops|
  {
    if ops == [] then Some(w)
    else match EagerStep(w, ops[0], answers[0], roomy)
      case None => None
      case Some(w1) => Replay(w1, ops[1..], answers[1..], roomy)
  }

  lemma {:induction false} ReplayCramped(w: Eager, ops: seq<Op>, answers: seq<Answer>, w': Eager)
    requires |ops| == |answers| && Replay(w, ops, answers, true) == Some(w')
    ensures Replay(w, ops, answers, false) == Some(w')
    decreases |ops|
  {
    if ops != [] {
      assert EagerStep(w, ops[0], answers[0], false) == EagerStep(w, ops[0], answers[0], true);
      ReplayCramped(EagerStep(w, ops[0], answers[0], true).value, ops[1..], answers[1..], w');
    }
  }

  /** Every page of every live task shows what the simple model says. */
  ghost predicate Agrees(s: Mm, w: Eager) {
    && s.prog == w.prog && s.files == w.files
    && forall l: Loc | l.t in s.prog && InTask(l) :: Sees(s, l) == w.page(l)
  }

  // ---------------------------------------------------------------- the kernel

  /** As `Agrees`, for every task but `t`. */
  ghost predicate AgreesBut(s: Mm, w: Eager, t: nat) {
    && s.prog == w.prog && s.files == w.files
    && forall l: Loc | l.t in s.prog && l.t != t && InTask(l) :: Sees(s, l) == w.page(l)
  }

  function TaskFrames(task: map<nat, nat>): set<nat> {
    set t | t in task :: task[t]
  }

  /** The frames kernel code owns are exactly the task structures of the live tasks and `kept`, the
      page of the swap bitmap. */
  ghost predicate TasksOk(s: Mm, task: map<nat, nat>, kept: set<nat>) {
    && task.Keys == s.prog.Keys
    && HeldSet(s) == TaskFrames(task) + kept
    && TaskFrames(task) !! kept
    && OneFrameEach(task)
  }

  predicate OneFrameEach(task: map<nat, nat>) {
    forall t, u | t in task && u in task && task[t] == task[u] :: t == u
  }

  // ---------------------------------------------------------------- tasks inside exec

  /** What the tasks' executable and library fields say: a task inside exec has its new executable already. */
  function Now(prog: map<nat, Prog>, busy: map<nat, nat>): (now: map<nat, Prog>)
    ensures now.Keys == prog.Keys
  {
    map t | t in prog :: if t in busy then prog[t].(executable := busy[t]) else prog[t]
  }

  /** Some task inside exec changes to the executable that the task of `l` runs, and still has a clean page of its
      old one there, with other bytes. */
  ghost predicate Exposed(s: Mm, busy: map<nat, nat>, l: Loc) {
    exists t :: Exposes(s.prog, s.files, busy, l, t) && CleanHere(s.pte, Loc(t, l.d, l.e))
  }

  predicate Exposes(prog: map<nat, Prog>, files: Files, busy: map<nat, nat>, l: Loc, t: nat) {
    && t in busy && t in prog && l.t in prog && busy[t] == prog[l.t].executable
    && Offset(l.d, l.e) < LIBRARY_OFFSET && Stale(prog, files, l, t)
  }

  /** As far as the simple model can tell. */
  ghost predicate Mixed(w: Eager, l: Loc) {
    exists t :: Exposes(w.prog, w.files, w.busy, l, t)
  }

  /** share_page can be misled exactly so. */
  lemma MisleadsExposed(s: Mm, busy: map<nat, nat>, l: Loc)
    requires FilesOk(s.files) && l.t in s.prog && l.t !in busy
    ensures Misleads(s, Now(s.prog, busy), l) <==> Exposed(s, busy, l)
  {
    hide FilesOk, Image, CleanHere;
    var now := Now(s.prog, busy);
    forall t: nat ensures Sharer(now, s.pte, l, t) && Stale(s.prog, s.files, l, t)
                     <==> Exposes(s.prog, s.files, busy, l, t) && CleanHere(s.pte, Loc(t, l.d, l.e))
    {
      if t in s.prog && Backing(now[t], l.d, l.e) == Backing(now[l.t], l.d, l.e)
         && !(t in busy && Offset(l.d, l.e) < LIBRARY_OFFSET)
      {
        SameImage(s.files, s.prog[t], s.prog[l.t], l.d, l.e);
      }
    }
  }

  lemma ExposedBefore(s0: Mm, s: Mm, busy: map<nat, nat>, l: Loc)
    requires s.prog == s0.prog && s.files == s0.files && CleanPages(s.pte) <= CleanPages(s0.pte) + {l}
    requires l.t !in busy && Exposed(s, busy, l)
    ensures Exposed(s0, busy, l)
  {
    var t :| Exposes(s.prog, s.files, busy, l, t) && CleanHere(s.pte, Loc(t, l.d, l.e));
    assert Loc(t, l.d, l.e) in CleanPages(s.pte);
  }

  lemma ExposedMixed(s: Mm, busy: map<nat, nat>, w: Eager, l: Loc)
    requires Exposed(s, busy, l) && Agrees(s, w) && busy == w.busy
    ensures Mixed(w, l)
  {
    var t :| Exposes(s.prog, s.files, busy, l, t) && CleanHere(s.pte, Loc(t, l.d, l.e));
    assert Exposes(w.prog, w.files, w.busy, l, t);
  }

  /** Every page but `l` shows what the simple model says. */
  ghost predicate Strays(s: Mm, w: Eager, l: Loc) {
    && s.prog == w.prog && s.files == w.files && Sees(s, l) != w.page(l)
    && forall m: Loc | m.t in s.prog && InTask(m) && m != l :: Sees(s, m) == w.page(m)
  }

  lemma StrayedStrays(s: Mm, s': Mm, w: Eager, l: Loc)
    requires Agrees(s, w) && Strayed(s, s', l) && l.t in s.prog && InTask(l)
    ensures Strays(s', w, l)
  {
  }

  lemma StrayedProg(s: Mm, s': Mm, l: Loc)
    requires Strayed(s, s', l)
    ensures s'.prog == s.prog
  {
  }

  lemma QuietShows(s: Mm, s': Mm, w: Eager)
    requires Quiet(s, s') && Agrees(s, w)
    ensures Agrees(s', w)
  {
  }

  lemma QuietAgrees(s: Mm, s': Mm, w: Eager, task: map<nat, nat>, kept: set<nat>)
    requires Quiet(s, s') && HeldSet(s') == HeldSet(s) && Agrees(s, w) && TasksOk(s, task, kept)
    ensures Agrees(s', w) && TasksOk(s', task, kept)
  {
  }

  class Machine {
    const m: Memory
    var task: map<nat, nat>       // task[nr]: the frame of its task structure
    var busy: map<nat, nat>       // tasks inside exec: the executable they have set
    ghost var kept: set<nat>

    ghost predicate Valid()
      reads this, m, m.memMap
    {
      m.Valid() && TasksOk(m.View(), task, kept) && busy.Keys <= task.Keys
    }

    ghost predicate Shows(w: Eager)
      reads this, m, m.memMap
    {
      Agrees(m.View(), w) && busy == w.busy
    }

    constructor (m: Memory)
      requires m.Valid() && m.prog == map[] && m.role == map[]
      ensures this.m == m && task == map[] && busy == map[] && Valid()
    {
      this.m := m;
      task, busy := map[], map[];
      kept := {};
    }

    /** find_empty_process: the first free slot. */
    method FindEmptyProcess() returns (r: Option<nat>)
      ensures r.Some? ==> 1 <= r.value < NR_TASKS && r.value !in task && forall t | 1 <= t < r.value :: t in task
      ensures r.None? ==> forall t | 1 <= t < NR_TASKS :: t in task
    {
      var i := 1;
      while i < NR_TASKS
        invariant 1 <= i <= NR_TASKS && forall t | 1 <= t < i :: t in task
      {
        if i !in task {
          return Some(i);
        }
        i := i + 1;
      }
      return None;
    }

    /** The first half of sys_fork: a page for the task structure and a slot in task[]. */
    method NewTask(q: Prog, ghost w: Eager) returns (r: Option<nat>)
      requires Valid() && Agrees(m.View(), w)
      modifies this`task, m, m.memMap
      ensures Valid()
      ensures r.None? ==> task == old(task) && m.prog == old(m.prog)
      ensures m.gaveUp >= old(m.gaveUp) && (r.None? ==> m.gaveUp > old(m.gaveUp) || forall t | 1 <= t < NR_TASKS ::
                t in w.prog)
      ensures r.None? ==> Agrees(m.View(), w)
      ensures r.Some? ==> r.value !in w.prog && m.prog == w.prog[r.value := q] && task - {r.value} == old(task)
                          && Agrees(m.View(), Restart(w, r.value, q))
                          && forall k | k in m.pgDir :: k.t != r.value
    {
      hide FramesOk, SwapOk, CleanOk, Calm, Quiet, GivesUp, Image, Sees, TasksOk, Agrees, AgreesBut;
      ghost var s := m.View();
      var page := m.GetFreePage();
      ghost var s1 := m.View();
      CalmIsQuiet(s, s1);
      CalmFacts(s, s1);
      AgreesWeaken(s, w, 0);
      AgreesFacts(s, w, task, kept, 0);
      if page.None? {
        QuietAgrees(s, s1, w, task, kept);
        return None;
      }
      var nr := FindEmptyProcess();
      if nr.None? {
        m.GiveUp(page.value);
        TakeAndGive(s, s1, m.View(), page.value);
        QuietAgrees(s, m.View(), w, task, kept);
        return None;
      }
      NewTaskAgrees(s, s1, w, task, kept, page.value, nr.value, q);
      task := task[nr.value := page.value];
      m.prog := m.prog[nr.value := q];
      assert m.View() == s1.(prog := s1.prog[nr.value := q]);
      return nr;
    }

    /** The task structure and the slot of a task without page tables are given back. */
    method EndTask(t: nat, ghost w: Eager)
      requires Valid() && AgreesBut(m.View(), w, t) && t in m.prog && t !in busy
      requires forall k | k in m.pgDir :: k.t != t
      modifies this`task, m, m.memMap
      ensures task == old(task) - {t} && m.prog == old(m.prog) - {t} && Valid()
              && Agrees(m.View(), w.(prog := w.prog - {t})) && m.gaveUp == old(m.gaveUp)
    {
      hide FramesOk, SwapOk, CleanOk, Located, Agrees, AgreesBut, TaskFrames, OneFrameEach, GivesUp, HeldSet, Sees;
      ghost var s := m.View();
      var page := task[t];
      HeldTask(s, task, kept, t);
      ExitKeeps(s, t);
      m.prog := m.prog - {t};
      ghost var s1 := m.View();
      assert s1 == s.(prog := s.prog - {t});
      m.GiveUp(page);
      EndTaskAgrees(s, s1, m.View(), w, task, kept, t);
      task := task - {t};
    }

    /** sys_fork: when memory lacks, the child's page tables are freed and its task structure and slot given back.
        (Pages that had come back from swap for the child stay in the parent's memory.) */
    method Fork(p: nat, ghost w: Eager) returns (r: Option<nat>)
      requires Valid() && Agrees(m.View(), w) && p in m.prog
      modifies this`task, m, m.memMap
      ensures Valid()
      ensures r.None? ==> task == old(task) && m.prog == old(m.prog)
      ensures m.gaveUp >= old(m.gaveUp) && (r.None? ==> m.gaveUp > old(m.gaveUp) || forall t | 1 <= t < NR_TASKS ::
                t in w.prog)
      ensures r.None? ==> Agrees(m.View(), w)
      ensures r.Some? ==> r.value !in w.prog && Agrees(m.View(), Forked(w, p, r.value))
    {
      hide Inv, Agrees, TasksOk, HeldSet, Cleared, OthersSame, AtRow, AgreesBut, Restart, Forked, Sees;
      AgreesWeaken(m.View(), w, 0);
      AgreesFacts(m.View(), w, task, kept, 0);
      r := NewTask(m.prog[p], w);
      if r.None? {
        return;
      }
      var c := r.value;
      ghost var s := m.View();
      var ok := m.CopyPageTables(p, c, TASK_DIRS);
      ghost var s1 := m.View();
      if !ok {
        ghost var w1 := w.(prog := w.prog[c := w.prog[p]]);
        ForkFailed(s, s1, w, task, kept, p, c);
        m.FreePageTables(c, 0, TASK_DIRS);
        ClearedAgrees(s1, m.View(), w1, task, kept, c);
        EndTask(c, w1);
        assert w1.prog - {c} == w.prog;
        return None;
      }
      ForkAgrees(s, s1, w, task, kept, p, c);
    }

    /** exit: all pages and tables go, then the task structure. */
    method Exit(t: nat, ghost w: Eager)
      requires Valid() && Agrees(m.View(), w) && t in m.prog && t !in busy
      modifies this`task, m, m.memMap
      ensures Valid() && Agrees(m.View(), w.(prog := w.prog - {t})) && m.gaveUp == old(m.gaveUp)
    {
      hide FramesOk, SwapOk, CleanOk, Located, Calm, Quiet, GivesUp, Cleared, Agrees, AgreesBut, TasksOk, HeldSet;
      hide Image, Sees;
      ghost var s := m.View();
      AgreesWeaken(s, w, t);
      m.FreePageTables(t, 0, TASK_DIRS);
      ClearedAgrees(s, m.View(), w, task, kept, t);
      AgreesFacts(m.View(), w, task, kept, t);
      EndTask(t, w);
    }

    /** do_execve passes the point of no return: the task has its new executable, but still its old page tables; then
        it closes files, which may put it to sleep. */
    method Exec(t: nat, executable: nat, ghost w: Eager)
      requires Valid() && Shows(w) && t in m.prog && t !in busy
      modifies this`busy
      ensures Valid() && Shows(w.(busy := w.busy[t := executable]))
    {
      hide FramesOk, SwapOk, CleanOk, Located, Image, Sees, HeldSet;
      AgreesSame(m.View(), w, w.(busy := w.busy[t := executable]));
      busy := busy[t := executable];
    }

    /** Its old pages go; its library stays. */
    method ExecEnd(t: nat, ghost w: Eager)
      requires Valid() && Shows(w) && t in m.prog && t in busy
      modifies this`busy, m, m.memMap
      ensures Valid() && t in w.prog && t in w.busy && Shows(Replaced(w, t))
      ensures m.gaveUp == old(m.gaveUp)
    {
      hide FramesOk, SwapOk, CleanOk, Located, Calm, Quiet, GivesUp, Cleared, Agrees, AgreesBut, TasksOk, Image, Sees;
      ghost var s := m.View();
      AgreesWeaken(s, w, t);
      m.FreePageTables(t, 0, TASK_DIRS);
      ghost var s1 := m.View();
      ClearedAgrees(s, s1, w, task, kept, t);
      AgreesFacts(s1, w, task, kept, t);
      var q := m.prog[t].(executable := busy[t]);
      ProgKeeps(s1, t, q);
      RestartAgrees(s1, w, t, q);
      m.prog := m.prog[t := q];
      busy := busy - {t};
      assert m.View() == s1.(prog := s1.prog[t := q]);
      SameTasks(s1, m.View(), task, kept);
      AgreesSame(m.View(), Restart(w, t, q), Replaced(w, t));
    }

    /** sys_uselib */
    method UseLib(t: nat, library: nat, ghost w: Eager)
      requires Valid() && Agrees(m.View(), w) && t in m.prog && t !in busy
      modifies m, m.memMap
      ensures Valid() && t in w.prog && Agrees(m.View(), Relinked(w, t, w.prog[t].(library := library)))
      ensures m.gaveUp == old(m.gaveUp)
    {
      hide FramesOk, SwapOk, CleanOk, Located, Calm, Quiet, GivesUp, Cleared, Agrees, AgreesBut, TasksOk, HeldSet;
      hide Image, Sees;
      ghost var s := m.View();
      AgreesWeaken(s, w, t);
      AgreesFacts(s, w, task, kept, t);
      m.FreePageTables(t, TASK_DIRS - 1, 1);
      ghost var s1 := m.View();
      ClearedFacts(s, s1, t, TASK_DIRS - 1, TASK_DIRS);
      var q := m.prog[t].(library := library);
      RelinkAgrees(s, s1, w, task, kept, t, q);
      m.prog := m.prog[t := q];
      assert m.View() == s1.(prog := s1.prog[t := q]);
    }

    /** A page that exec filled is put at `l` (put_dirty_page). */
    method Install(l: Loc, bytes: Page, ghost w: Eager) returns (ok: bool)
      requires Valid() && Agrees(m.View(), w) && l.t in m.prog && InTask(l) && |bytes| == PAGE_SIZE
      modifies m, m.memMap
      ensures Valid()
      ensures Agrees(m.View(), if ok then Written(w, l, bytes) else w)
      ensures m.gaveUp >= old(m.gaveUp) && (!ok ==> m.gaveUp > old(m.gaveUp) || l in old(m.pte))
    {
      hide FramesOk, SwapOk, CleanOk, Located, Calm, Quiet, GivesUp, Cleared, Agrees, AgreesBut, TasksOk, HeldSet;
      hide Image, Sees;
      ghost var s := m.View();
      if l in m.pte {
        return false;
      }
      var page := m.GetFreePage();
      ghost var s1 := m.View();
      CalmIsQuiet(s, s1);
      CalmFacts(s, s1);
      if page.None? {
        QuietAgrees(s, s1, w, task, kept);
        return false;
      }
      FillQuiet(s, s1, page.value, bytes);
      m.mem := m.mem[page.value := bytes];
      ghost var s2 := m.View();
      assert s2 == Fill(s1, page.value, bytes);
      ok := m.PutPage(page.value, l, true);
      ghost var s3 := m.View();
      if !ok {
        QuietHeld(s2, s3, page.value);
        m.GiveUp(page.value);
        QuietTrans(s, s2, s3);
        TakeAndGive(s, s3, m.View(), page.value);
        QuietAgrees(s, m.View(), w, task, kept);
        return;
      }
      WrittenAgrees(s, s2, s3, w, task, kept, page.value, l, bytes);
    }

    /** The page at `l` is brought in unless it is in memory. */
    method Bring(l: Loc, iCount: nat, ghost w: Eager, ghost s0: Mm) returns (ok: bool, misled: bool)
      requires Valid() && Agrees(m.View(), w) && l.t in m.prog && l.t !in busy && InTask(l)
      requires m.prog == s0.prog && m.files == s0.files && CleanPages(m.pte) <= CleanPages(s0.pte) + {l}
      modifies m, m.memMap
      ensures m.prog == s0.prog
      ensures !misled ==> Valid() && Agrees(m.View(), w) && CleanPages(m.pte) <= CleanPages(s0.pte) + {l}
      ensures misled ==> ok && Exposed(s0, busy, l) && Strays(m.View(), w, l)
      ensures ok ==> l in m.pte && m.pte[l].Present? && m.pte[l].frame in m.mem
      ensures ok && !misled && !m.pte[l].rw ==>
                Wandered(PresentSet(old(m.pte)) - {l}, PresentSet(m.pte) - {l}, old(m.Clock()), m.Clock())
      ensures AsksToShare(old(m.View()), l, iCount) ==>
                (misled <==> StaleFirst(old(m.View()), Now(m.prog, busy), l))
      ensures m.gaveUp >= old(m.gaveUp) && (!ok ==> m.gaveUp > old(m.gaveUp))
    {
      hide Inv, Quiet, Agrees, TasksOk, HeldSet, Image, Sees, Wandered, CleanPages;
      hide StaleFirst, Exposed, Misleads, Strayed, Strays, Initial, Source, Offset, Stale;
      ghost var s := m.View();
      AgreesProg(s, w);
      if l in m.pte && m.pte[l].Present? {
        WanderedNot(PresentSet(m.pte) - {l}, m.Clock());
        EntryFacts(s, l);
        return true, false;
      }
      var r;
      r, misled := m.DoNoPage(l, true, iCount, Now(m.prog, busy));
      ok := r.Done?;
      assert PresentSet(s.pte) - {l} == PresentSet(s.pte);
      if misled {
        FilesFine(s);
        MisleadsExposed(s, busy, l);
        ExposedBefore(s0, s, busy, l);
        StrayedStrays(s, m.View(), w, l);
        StrayedProg(s, m.View(), l);
      } else {
        QuietAgrees(s, m.View(), w, task, kept);
        AgreesProg(m.View(), w);
        if ok { EntryFacts(m.View(), l); }
      }
    }

    /** The page at `l` comes to be writable, unless making room takes it away. */
    method Unshare(l: Loc, ghost w: Eager) returns (ok: bool)
      requires Valid() && Agrees(m.View(), w)
      modifies m, m.memMap
      ensures Valid() && Agrees(m.View(), w) && m.prog == old(m.prog)
      ensures CleanPages(m.pte) <= CleanPages(old(m.pte)) + {l}
      ensures ok && l in PresentSet(m.pte) ==> m.pte[l].Present? && m.pte[l].rw && m.pte[l].frame in m.mem
      ensures ok && l !in PresentSet(m.pte) ==>
                Wandered(PresentSet(old(m.pte)), PresentSet(m.pte), old(m.Clock()), m.Clock())
      ensures m.gaveUp >= old(m.gaveUp) && (!ok ==> m.gaveUp > old(m.gaveUp))
    {
      hide Inv, Quiet, Agrees, TasksOk, HeldSet, Image, Sees, Wandered, CleanPages;
      ghost var s := m.View();
      var r := m.UnWpPage(l);
      QuietFacts(s, m.View());
      QuietAgrees(s, m.View(), w, task, kept);
      ok := r.Done?;
      if l in m.pte { EntryFacts(m.View(), l); }
    }

    /** A user access to `l`: the page fault handlers run until the entry allows it, or memory runs out.  Making room
        for a copy may take the page itself away; then the access faults again. */
    method Fault(l: Loc, write: bool, iCount: nat, ghost w: Eager) returns (ok: bool, misled: bool)
      requires Valid() && Agrees(m.View(), w) && l.t in m.prog && l.t !in busy && InTask(l)
      modifies m, m.memMap
      ensures m.prog == old(m.prog)
      ensures !misled ==> Valid() && Agrees(m.View(), w)
      ensures misled ==> ok && Exposed(old(m.View()), busy, l) && Strays(m.View(), w, l)
      ensures ok ==> l in m.pte && m.pte[l].Present? && m.pte[l].frame in m.mem && (write && !misled ==> m.pte[l].rw)
      ensures AsksToShare(old(m.View()), l, iCount) && StaleFirst(old(m.View()), Now(m.prog, busy), l) ==> misled
      ensures AsksToShare(old(m.View()), l, iCount) && misled && !write ==>
                StaleFirst(old(m.View()), Now(m.prog, busy), l)
      ensures m.gaveUp >= old(m.gaveUp) && (!ok ==> m.gaveUp > old(m.gaveUp))
    {
      hide Inv, Quiet, Agrees, TasksOk, HeldSet, Image, Sees, Wandered, PresentSet, CleanPages;
      hide StaleFirst, AsksToShare, Exposed, Misleads, Strayed, Strays, Now;
      ghost var s0 := m.View();
      ghost var asks := AsksToShare(s0, l, iCount) && StaleFirst(s0, Now(s0.prog, busy), l);
      ok, misled := false, false;
      while true
        invariant Valid() && Agrees(m.View(), w) && m.prog == s0.prog && m.gaveUp >= old(m.gaveUp)
        invariant CleanPages(m.pte) <= CleanPages(s0.pte) + {l}
        invariant m.View() == s0 || (write && !asks)
        decreases |PresentSet(m.pte) - {l}|, if m.dirEntry == Number(l) then 0 else 1
      {
        ghost var p, h := PresentSet(m.pte), m.Clock();
        ok, misled := Bring(l, iCount, w, s0);
        if misled || !ok || !write || m.pte[l].rw {
          return;
        }
        PresentIs(m.pte, l);
        ghost var p1, h1 := PresentSet(m.pte), m.Clock();
        ok := Unshare(l, w);
        PresentIs(m.pte, l);
        if !ok || (l in m.pte && m.pte[l].Present?) {
          return;
        }
        Slipped(p, p1, PresentSet(m.pte), h, h1, m.Clock(), l);
      }
    }

    method Load(l: Loc, iCount: nat, ghost w: Eager) returns (r: Option<Page>, misled: bool)
      requires Valid() && Agrees(m.View(), w) && l.t in m.prog && l.t !in busy && InTask(l)
      modifies m, m.memMap
      ensures !misled ==> Valid() && Agrees(m.View(), w) && (r.Some? ==> r.value == w.page(l))
      ensures !misled && r.Some? && l !in old(m.pte) ==> Untouched(r.value, m.files, m.prog[l.t], l.d, l.e)
      ensures misled ==> Exposed(old(m.View()), busy, l) && Strays(m.View(), w, l) && r.Some? && r.value != w.page(l)
      ensures AsksToShare(old(m.View()), l, iCount) ==>
                (misled <==> StaleFirst(old(m.View()), Now(m.prog, busy), l))
      ensures m.gaveUp >= old(m.gaveUp) && (r.None? ==> m.gaveUp > old(m.gaveUp))
    {
      hide Inv, Agrees, TasksOk, HeldSet, Image, StaleFirst, AsksToShare, Exposed, Strays, Now, Untouched;
      if l !in m.pte { StartsFresh(m.View(), w, l); }
      var ok;
      ok, misled := Fault(l, false, iCount, w);
      if !ok {
        return None, false;
      }
      LoadAgrees(m.View(), w, l, misled);
      return Some(m.mem[m.pte[l].frame]), misled;
    }

    method Store(l: Loc, i: nat, b: Byte, iCount: nat, ghost w: Eager) returns (ok: bool, misled: bool)
      requires Valid() && Agrees(m.View(), w) && l.t in m.prog && l.t !in busy && InTask(l) && i < PAGE_SIZE
      modifies m, m.memMap
      ensures !misled ==> Valid()
      ensures !misled && ok ==> i < |w.page(l)| && Agrees(m.View(), Written(w, l, w.page(l)[i := b]))
      ensures !misled && !ok ==> Agrees(m.View(), w)
      ensures misled ==> Exposed(old(m.View()), busy, l) && Strays(m.View(), w, l)
      ensures AsksToShare(old(m.View()), l, iCount) && StaleFirst(old(m.View()), Now(m.prog, busy), l) ==> misled
      ensures m.gaveUp >= old(m.gaveUp) && (!ok ==> m.gaveUp > old(m.gaveUp))
    {
      hide FramesOk, SwapOk, CleanOk, Located, Agrees, TasksOk, HeldSet, Image, StaleFirst, AsksToShare, Exposed;
      hide Strays, Now;
      ok, misled := Fault(l, true, iCount, w);
      if ok && !misled {
        ghost var s := m.View();
        EntryFacts(s, l);
        StoreKeeps(s, l, i, b);
        var frame := m.pte[l].frame;
        var page: Page := m.mem[frame][i := b];
        m.mem := m.mem[frame := page];
        m.pte := m.pte[l := m.pte[l].(dirty := true)];
        assert m.View() == PagingSteps.Store(s, l, i, b);
        StoreAgrees(s, m.View(), w, task, kept, l, i, b);
      }
    }

    /** sys_swapon: `bits` is the bitmap read from the swap area, whose last ten bytes hold the
        signature. */
    method SwapOn(signature: bool, bits: seq<bool>, ghost w: Eager) returns (ok: bool)
      requires Valid() && Agrees(m.View(), w) && |bits| == SWAP_BITS
      modifies this`kept, m, m.memMap
      ensures Valid() && Agrees(m.View(), w)
      ensures ok <==> old(m.swapMap) == [] && m.swapMap != []
      ensures ok ==> signature && m.usable == Slots(bits[..8 * 4086]) && m.usable != {}
      ensures m.gaveUp >= old(m.gaveUp)
      ensures !ok ==> m.gaveUp > old(m.gaveUp) || old(m.swapMap) != [] || !signature || Slots(bits[..8 * 4086]) == {}
    {
      hide FramesOk, SwapOk, CleanOk, Located, Calm, Quiet, GivesUp, Agrees, AgreesBut, TasksOk, HeldSet, Image, Sees;
      if m.swapMap != [] {
        return false;
      }
      ghost var s := m.View();
      var page := m.GetFreePage();
      ghost var s1 := m.View();
      CalmIsQuiet(s, s1);
      if page.None? {
        QuietAgrees(s, s1, w, task, kept);
        QuietLength(s, s1);
        return false;
      }
      QuietLength(s, s1);
      var bitmap := bits[..8 * 4086] + seq(80, _ => false);
      SlotsOf(bits, bitmap);
      if !signature || forall n | 1 <= n < SWAP_BITS :: !bitmap[n] {
        m.GiveUp(page.value);
        TakeAndGive(s, s1, m.View(), page.value);
        QuietAgrees(s, m.View(), w, task, kept);
        QuietLength(s, m.View());
        return false;
      }
      SwapOnAgrees(s, s1, w, task, kept, page.value, bitmap);
      m.swapMap := bitmap;
      m.usable := Slots(bitmap);
      assert m.View() == s1.(swapMap := bitmap, usable := Slots(bitmap));
      kept := kept + {page.value};
      return true;
    }

    /** One operation.  It goes as in the simple model, unless a load or a store faults on a page of the executable that
        another task, still asleep in its exec, changes to: then it may be given that task's old page. */
    method Step(op: Op, ghost w: Eager) returns (a: Answer, misled: bool, ghost w': Eager)
      requires Valid() && Shows(w)
      modifies this, m, m.memMap
      ensures !misled ==> Valid() && Shows(w') && EagerStep(w, op, a, m.gaveUp == old(m.gaveUp)) == Some(w')
      ensures misled ==> (op.Load? || op.Store?) && Exposed(old(m.View()), old(busy), op.l) && Strays(m.View(), w, op.l)
      ensures misled && op.Load? ==> EagerStep(w, op, a, false) == None
      ensures m.gaveUp >= old(m.gaveUp)
    {
      hide Inv, Calm, Quiet, Agrees, TasksOk, HeldSet, Image, Sees, Exposed, Strays, AsksToShare, StaleFirst, Now;
      hide TaskSlotFree;
      w', misled := w, false;
      a := Refused;
      AgreesProg(m.View(), w);
      SlotsTaken(w);
      match op
      case Spawn(q) =>
        var r := NewTask(q, w);
        if r.Some? {
          a, w' := Created(r.value), Restart(w, r.value, q);
        }
      case Fork(p) =>
        if p in m.prog && p !in busy {
          var r := Fork(p, w);
          if r.Some? {
            a, w' := Created(r.value), Forked(w, p, r.value);
          }
        }
      case Exit(t) =>
        if t in m.prog && t !in busy {
          Exit(t, w);
          a, w' := Accepted, w.(prog := w.prog - {t});
        }
      case Exec(t, x) =>
        if t in m.prog && t !in busy {
          Exec(t, x, w);
          a, w' := Accepted, w.(busy := w.busy[t := x]);
        }
      case ExecEnd(t) =>
        if t in m.prog && t in busy {
          ExecEnd(t, w);
          a, w' := Accepted, Replaced(w, t);
        }
      case UseLib(t, x) =>
        if t in m.prog && t !in busy {
          UseLib(t, x, w);
          a, w' := Accepted, Relinked(w, t, w.prog[t].(library := x));
        }
      case Install(l, bytes) =>
        if l.t in m.prog && l.t !in busy && InTask(l) && |bytes| == PAGE_SIZE {
          var ok := Install(l, bytes, w);
          if ok {
            a, w' := Accepted, Written(w, l, bytes);
          }
        }
      case Load(l, iCount) =>
        if l.t in m.prog && l.t !in busy && InTask(l) {
          var r;
          r, misled := Load(l, iCount, w);
          if r.Some? {
            a := Bytes(r.value);
          }
        }
      case Store(l, i, b, iCount) =>
        if l.t in m.prog && l.t !in busy && InTask(l) && i < PAGE_SIZE {
          var ok;
          ok, misled := Store(l, i, b, iCount, w);
          if ok && !misled {
            a, w' := Accepted, Written(w, l, w.page(l)[i := b]);
          }
        }
      case SwapOn(signature, bits) =>
        if |bits| == SWAP_BITS {
          var ok := SwapOn(signature, bits, w);
          if ok {
            a := Accepted;
          }
        }
      case MakeRoom =>
        ghost var s := m.View();
        var ok := m.SwapOutSome();
        CalmIsQuiet(s, m.View());
        QuietAgrees(s, m.View(), w, task, kept);
        a := Accepted;
    }

    /** Any run: what the tasks are told is what the simple model tells them, and nothing is refused unless the task
        table is full or get_free_page could make no room.  The run ends early only at an access to a page of an
        executable that some task inside exec is about to change to. */
    method Run(ops: seq<Op>, ghost w: Eager) returns (answers: seq<Answer>, misled: bool, ghost w': Eager)
      requires Valid() && Shows(w)
      modifies this, m, m.memMap
      ensures !misled ==> Valid() && Shows(w') && |answers| == |ops|
      ensures misled ==> |answers| < |ops| && var op := ops[|answers|]; (op.Load? || op.Store?) && Mixed(w', op.l)
      ensures |answers| <= |ops| && m.gaveUp >= old(m.gaveUp)
      ensures Replay(w, ops[..|answers|], answers, m.gaveUp == old(m.gaveUp)) == Some(w')
      decreases |ops|
    {
      hide EagerStep, Exposed, Mixed, Strays;
      answers, misled, w' := [], false, w;
      if ops != [] {
        ghost var s := m.View();
        var a;
        ghost var w1;
        a, misled, w1 := Step(ops[0], w);
        if misled {
          ExposedMixed(s, w.busy, w, ops[0].l);
          return;
        }
        ghost var gaveUp := m.gaveUp;
        answers, misled, w' := Run(ops[1..], w1);
        ReplayMore(w, w1, w', ops, a, answers, gaveUp == old(m.gaveUp), m.gaveUp == gaveUp);
        answers := [a] + answers;
      }
    }
  }

  lemma ReplayMore(w: Eager, w1: Eager, w': Eager, ops: seq<Op>, a: Answer, answers: seq<Answer>, first: bool,
                   rest: bool)
    requires |answers| < |ops| && EagerStep(w, ops[0], a, first) == Some(w1)
    requires Replay(w1, ops[1..][..|answers|], answers, rest) == Some(w')
    ensures Replay(w, ops[..|answers| + 1], [a] + answers, first && rest) == Some(w')
  {
    assert EagerStep(w, ops[0], a, first && rest) == Some(w1);
    if rest { ReplayCramped(w1, ops[1..][..|answers|], answers, w'); }
    var (now, told) := (ops[..|answers| + 1], [a] + answers);
    assert now[0] == ops[0] && now[1..] == ops[1..][..|answers|] && told[0] == a && told[1..] == answers;
  }

  lemma SlotsTaken(w: Eager)
    ensures TaskSlotFree(w) <==> !(forall t | 1 <= t < NR_TASKS :: t in w.prog)
  {
  }

  lemma AgreesSame(s: Mm, w: Eager, w1: Eager)
    requires Agrees(s, w) && w1.prog == w.prog && w1.files == w.files
    requires forall l :: w1.page(l) == w.page(l)
    ensures Agrees(s, w1)
  {
  }

  lemma PresentIs(pte: map<Loc, Pte>, l: Loc)
    ensures l in PresentSet(pte) <==> l in pte && pte[l].Present?
  {
  }

  lemma FilesFine(s: Mm)
    requires Inv(s)
    ensures FilesOk(s.files)
  {
  }

  lemma AgreesFacts(s: Mm, w: Eager, task: map<nat, nat>, kept: set<nat>, t: nat)
    requires AgreesBut(s, w, t) && TasksOk(s, task, kept)
    ensures s.prog == w.prog && s.files == w.files && task.Keys == s.prog.Keys
  {
  }

  lemma NewTaskAgrees(s: Mm, s1: Mm, w: Eager, task: map<nat, nat>, kept: set<nat>, f: nat, t: nat, q: Prog)
    requires Inv(s1) && Calm(s, s1) && Agrees(s, w) && TasksOk(s, task, kept)
    requires f !in HeldSet(s) && HeldSet(s1) == HeldSet(s) + {f}
    requires 1 <= t < NR_TASKS && t !in task
    ensures var s2 := s1.(prog := s1.prog[t := q]);
            Inv(s2) && Agrees(s2, Restart(w, t, q)) && TasksOk(s2, task[t := f], kept)
            && forall k | k in s2.dir :: k.t != t
  {
    hide Inv, Quiet, Restart, Agrees, AgreesBut, Sees, OneFrameEach, TaskFrames;
    CalmIsQuiet(s, s1);
    CalmFacts(s, s1);
    QuietShows(s, s1, w);
    NoTables(s1, t);
    ProgKeeps(s1, t, q);
    AgreesWeaken(s1, w, t);
    RestartAgrees(s1, w, t, q);
    FramesPlus(task, t, f);
  }

  /** A task that maps nothing shows the initial pages of whatever it is said to run. */
  lemma RestartAgrees(s: Mm, w: Eager, t: nat, q: Prog)
    requires AgreesBut(s, w, t) && forall l | l in s.pte :: l.t != t
    ensures Agrees(s.(prog := s.prog[t := q]), Restart(w, t, q))
  {
  }

  /** A slot without a task has no page tables and no pages. */
  lemma NoTables(s: Mm, t: nat)
    requires Inv(s) && t !in s.prog
    ensures forall k | k in s.dir :: k.t != t
    ensures forall l | l in s.pte :: l.t != t
  {
  }

  lemma FramesPlus(task: map<nat, nat>, t: nat, f: nat)
    requires t !in task
    ensures TaskFrames(task[t := f]) == TaskFrames(task) + {f}
    ensures OneFrameEach(task) && f !in TaskFrames(task) ==> OneFrameEach(task[t := f])
  {
    var task' := task[t := f];
    assert t in task' && task'[t] == f;
    forall u | u in task ensures u in task' && task'[u] == task[u] {}
    forall g | g in TaskFrames(task) ensures g in TaskFrames(task') {
      var u :| u in task && task[u] == g;
      assert u in task' && task'[u] == g;
    }
  }

  lemma FramesMinus(task: map<nat, nat>, t: nat)
    requires t in task && OneFrameEach(task)
    ensures TaskFrames(task - {t}) == TaskFrames(task) - {task[t]}
    ensures OneFrameEach(task - {t})
  {
    var task' := task - {t};
    forall g | g in TaskFrames(task) && g != task[t] ensures g in TaskFrames(task') {
      var u :| u in task && task[u] == g;
      assert u in task' && task'[u] == g;
    }
  }

  lemma HeldTask(s: Mm, task: map<nat, nat>, kept: set<nat>, t: nat)
    requires TasksOk(s, task, kept) && t in task
    ensures IsHeld(s, task[t])
  {
    assert task[t] in TaskFrames(task);
    assert task[t] in HeldSet(s);
  }

  lemma EndTaskAgrees(s: Mm, s1: Mm, s2: Mm, w: Eager, task: map<nat, nat>, kept: set<nat>, t: nat)
    requires AgreesBut(s, w, t) && TasksOk(s, task, kept) && t in task
    requires s1 == s.(prog := s.prog - {t}) && SameSights(s1, s2) && GivesUp(s1, s2, task[t])
    ensures Agrees(s2, w.(prog := w.prog - {t})) && TasksOk(s2, task - {t}, kept)
  {
    hide Image;
    FramesMinus(task, t);
    assert HeldSet(s1) == HeldSet(s);
  }

  /** After a failed copy the parent and everyone else show what they showed. */
  lemma ForkFailed(s: Mm, s1: Mm, w: Eager, task: map<nat, nat>, kept: set<nat>, p: nat, c: nat)
    requires p in w.prog && TasksOk(s, task, kept) && Agrees(s, Restart(w, c, w.prog[p])) && OthersSame(s, s1, c)
    ensures s1.prog == s.prog && TasksOk(s1, task, kept) && AgreesBut(s1, w.(prog := w.prog[c := w.prog[p]]), c)
  {
  }

  lemma AgreesWeaken(s: Mm, w: Eager, t: nat)
    requires Agrees(s, w)
    ensures AgreesBut(s, w, t)
  {
  }

  lemma ClearedAgrees(s: Mm, s': Mm, w: Eager, task: map<nat, nat>, kept: set<nat>, t: nat)
    requires Inv(s') && AgreesBut(s, w, t) && TasksOk(s, task, kept) && Cleared(s, s', t, 0, TASK_DIRS, 0)
    ensures AgreesBut(s', w, t) && TasksOk(s', task, kept)
    ensures forall k | k in s'.dir :: k.t != t
    ensures forall l | l in s'.pte :: l.t != t
  {
  }

  lemma ForkAgrees(s: Mm, s1: Mm, w: Eager, task: map<nat, nat>, kept: set<nat>, p: nat, c: nat)
    requires TasksOk(s, task, kept) && p in w.prog && p != c && Agrees(s, Restart(w, c, w.prog[p]))
    requires AtRow(s, s1, p, c, TASK_DIRS)
    ensures TasksOk(s1, task, kept) && Agrees(s1, Forked(w, p, c))
  {
  }

  lemma AgreesProg(s: Mm, w: Eager)
    requires Agrees(s, w)
    ensures s.prog == w.prog
  {
  }

  lemma SameTasks(s: Mm, s': Mm, task: map<nat, nat>, kept: set<nat>)
    requires TasksOk(s, task, kept) && HeldSet(s') == HeldSet(s) && s'.prog.Keys == s.prog.Keys
    ensures TasksOk(s', task, kept)
  {
  }

  lemma ClearedFacts(s: Mm, s': Mm, t: nat, lo: nat, d: nat)
    requires Cleared(s, s', t, lo, d, 0)
    ensures s'.prog == s.prog
  {
  }

  lemma RelinkAgrees(s: Mm, s1: Mm, w: Eager, task: map<nat, nat>, kept: set<nat>, t: nat, q: Prog)
    requires Inv(s1) && Agrees(s, w) && TasksOk(s, task, kept) && Cleared(s, s1, t, TASK_DIRS - 1, TASK_DIRS, 0)
    requires t in s.prog && q.executable == s.prog[t].executable
    ensures var s2 := s1.(prog := s1.prog[t := q]);
            Inv(s2) && Agrees(s2, Relinked(w, t, q)) && TasksOk(s2, task, kept)
  {
    var s2 := s1.(prog := s1.prog[t := q]);
    RelinkImages(s, s1, t, q);
    RelinkKeeps(s, s1, t, q);
    hide FramesOk, SwapOk, Image, CleanOk, Located, Initial, HeldSet, TasksOk;
    forall l: Loc | l.t in s2.prog && InTask(l) ensures Sees(s2, l) == Relinked(w, t, q).page(l) {
      RelinkSees(s, s1, w, t, q, l);
    }
    SameTasks(s, s2, task, kept);
  }

  lemma RelinkImages(s: Mm, s1: Mm, t: nat, q: Prog)
    requires Inv(s1) && Cleared(s, s1, t, TASK_DIRS - 1, TASK_DIRS, 0) && t in s.prog
             && q.executable == s.prog[t].executable
    ensures forall l: Loc | InTask(l) && (l.t != t || l.d < TASK_DIRS - 1) ::
              Initial(s1.prog[t := q], s1.files, l) == Initial(s1.prog, s1.files, l)
  {
    hide FramesOk, SwapOk, Image, CleanOk, Located;
    forall l: Loc | l.t == t && InTask(l) && l.d < TASK_DIRS - 1
      ensures Initial(s1.prog[t := q], s1.files, l) == Initial(s1.prog, s1.files, l)
    {
      SameImage(s1.files, s.prog[t], q, l.d, l.e);
    }
  }

  /** Nothing is mapped where the initial pages have changed. */
  lemma RelinkKeeps(s: Mm, s1: Mm, t: nat, q: Prog)
    requires Inv(s1) && Cleared(s, s1, t, TASK_DIRS - 1, TASK_DIRS, 0) && t in s.prog
             && q.executable == s.prog[t].executable
    ensures Inv(s1.(prog := s1.prog[t := q]))
  {
    RelinkImages(s, s1, t, q);
    assert forall l | l in s1.pte :: InTask(l) && (l.t != t || l.d < TASK_DIRS - 1) by {
      hide FramesOk, SwapOk, CleanOk, Sees;
    }
    hide FramesOk, SwapOk, Image, Initial, Cleared;
    assert CleanOk(s1.pte, s1.mem, s1.prog[t := q], s1.files);
    hide CleanOk;
  }

  lemma RelinkSees(s: Mm, s1: Mm, w: Eager, t: nat, q: Prog, l: Loc)
    requires Inv(s1) && Agrees(s, w) && Cleared(s, s1, t, TASK_DIRS - 1, TASK_DIRS, 0)
    requires t in s.prog && q.executable == s.prog[t].executable && l.t in s.prog && InTask(l)
    ensures Sees(s1.(prog := s1.prog[t := q]), l) == Relinked(w, t, q).page(l)
  {
    hide FramesOk, SwapOk, Image, CleanOk, Located;
    if l.t == t && l.d == TASK_DIRS - 1 {
      assert Gone(l, t, TASK_DIRS - 1, TASK_DIRS, 0);
    } else {
      RelinkImages(s, s1, t, q);
      assert !Gone(l, t, TASK_DIRS - 1, TASK_DIRS, 0);
    }
  }

  lemma WrittenAgrees(s: Mm, s2: Mm, s3: Mm, w: Eager, task: map<nat, nat>, kept: set<nat>, f: nat, l: Loc, bytes: Page)
    requires Agrees(s, w) && TasksOk(s, task, kept) && Quiet(s, s2) && HeldSet(s2) == HeldSet(s) + {f}
             && f !in HeldSet(s)
    requires GivesUp(s2, s3, f) && SameElsewhere(s2, s3, l) && Sees(s3, l) == bytes
    ensures Agrees(s3, Written(w, l, bytes)) && TasksOk(s3, task, kept)
  {
  }

  lemma StartsFresh(s: Mm, w: Eager, l: Loc)
    requires Inv(s) && Agrees(s, w) && l.t in s.prog && InTask(l) && l !in s.pte
    ensures Untouched(w.page(l), s.files, s.prog[l.t], l.d, l.e)
  {
    hide Image, Untouched, FramesOk, SwapOk, CleanOk, Located;
    ImageUntouched(s.files, s.prog[l.t], l.d, l.e);
    assert Sees(s, l) == w.page(l);
  }

  lemma LoadAgrees(s: Mm, w: Eager, l: Loc, misled: bool)
    requires l in s.pte && s.pte[l].Present? && s.pte[l].frame in s.mem && l.t in s.prog && InTask(l)
    requires if misled then Strays(s, w, l) else Agrees(s, w)
    ensures s.mem[s.pte[l].frame] == w.page(l) <==> !misled
  {
  }

  lemma StoreAgrees(s: Mm, s': Mm, w: Eager, task: map<nat, nat>, kept: set<nat>, l: Loc, i: nat, b: Byte)
    requires Agrees(s, w) && TasksOk(s, task, kept) && l.t in s.prog && InTask(l) && i < |Sees(s, l)|
    requires s'.prog == s.prog && s'.files == s.files && s'.role == s.role
    requires SameElsewhere(s, s', l) && Sees(s', l) == Sees(s, l)[i := b]
    ensures i < |w.page(l)| && Agrees(s', Written(w, l, w.page(l)[i := b])) && TasksOk(s', task, kept)
  {
  }

  function Slots(bits: seq<bool>): set<nat> {
    set n | 1 <= n < |bits| && bits[n]
  }

  lemma QuietLength(s: Mm, s': Mm)
    requires Quiet(s, s')
    ensures |s'.swapMap| == |s.swapMap|
  {
  }

  lemma SlotsOf(bits: seq<bool>, bitmap: seq<bool>)
    requires |bits| == SWAP_BITS && bitmap == bits[..8 * 4086] + seq(80, _ => false)
    ensures Slots(bitmap) == Slots(bits[..8 * 4086])
    ensures Slots(bitmap) == {} <==> forall n | 1 <= n < SWAP_BITS :: !bitmap[n]
  {
    if n :| 1 <= n < SWAP_BITS && bitmap[n] { assert n in Slots(bitmap); }
  }

  lemma SwapOnAgrees(s: Mm, s1: Mm, w: Eager, task: map<nat, nat>, kept: set<nat>, f: nat, bitmap: seq<bool>)
    requires Inv(s1) && Quiet(s, s1) && f !in HeldSet(s) && HeldSet(s1) == HeldSet(s) + {f}
    requires Agrees(s, w) && TasksOk(s, task, kept) && s1.swapMap == [] && |bitmap| == SWAP_BITS
    ensures var s2 := s1.(swapMap := bitmap, usable := Slots(bitmap));
            Inv(s2) && Agrees(s2, w) && TasksOk(s2, task, kept + {f})
  {
    hide FramesOk, CleanOk, Located, Image, Sees;
    var s2 := s1.(swapMap := bitmap, usable := Slots(bitmap));
    assert s1.usable == {} && s1.slotOf == map[];
    SameSees(s1, s2);
    assert TasksOk(s2, task, kept + {f}) by {
      assert HeldSet(s2) == HeldSet(s1);
    }
  }

  lemma SameSees(s: Mm, s': Mm)
    requires s'.pte == s.pte && s'.mem == s.mem && s'.swap == s.swap && s'.prog == s.prog && s'.files == s.files
    ensures SameSights(s, s')
  {
  }
}
