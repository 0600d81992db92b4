/** Sleeping and waking (kernel/sched.c, fs/select.c).  A wait queue is one word, the last task that
    went to sleep on it; each sleeper keeps the task below it in a local variable of its own kernel
    stack (`tmp` in __sleep_on, `old_task` in the table of a select).  This module states what the
    words mean and shows that every step keeps it. */
module SleepQueues {
  import opened Kernel
  import opened Wrappers

  /** Task numbers; 0 is NULL, as task[0] never sleeps. */
  type Task = nat
  type Queue = nat

  datatype Run = Running | Interruptible | Uninterruptible

  /** What a task remembers about a queue it is on: who was on top when it came. */
  datatype Entry = Entry(queue: Queue, below: Task)

  /** The kernel's words: queue heads, task states, and the entries each sleeper still has to take
      off.  The other fields are the history the invariant speaks of: when each sleeper came, the
      sleepers that woke up below others and passed the wake on (`chase`), and the queues woken
      since they were last empty. */
  datatype Sys = Sys(
    head: map<Queue, Task>,
    state: map<Task, Run>,
    waits: map<Task, seq<Entry>>,
    since: map<Task, nat>,
    clock: nat,
    chase: set<Task>,
    woken: set<Queue>)

  function Head(s: Sys, q: Queue): Task { if q in s.head then s.head[q] else 0 }
  function State(s: Sys, t: Task): Run { if t in s.state then s.state[t] else Running }
  function Waits(s: Sys, t: Task): seq<Entry> { if t in s.waits then s.waits[t] else [] }
  function Since(s: Sys, t: Task): nat { if t in s.since then s.since[t] else 0 }

  /** The task saved for queue `q`, if there is an entry for it. */
  function LinkOf(w: seq<Entry>, q: Queue): Option<Task> {
    if w == [] then None
    else if w[0].queue == q then Some(w[0].below)
    else LinkOf(w[1..], q)
  }

  predicate OncePerQueue(w: seq<Entry>) {
    w == [] || (LinkOf(w[1..], w[0].queue).None? && OncePerQueue(w[1..]))
  }

  function Link(s: Sys, t: Task, q: Queue): Option<Task> { LinkOf(Waits(s, t), q) }

  predicate Lively(s: Sys, t: Task) { State(s, t).Running? || t in s.chase }

  /** The head is the newest sleeper on the queue, NULL if there is none. */
  ghost predicate HeadOk(s: Sys, q: Queue) {
    && (Head(s, q) != 0 ==> Link(s, Head(s, q), q).Some?)
    && (forall t: Task | Link(s, t, q).Some? ::
         Head(s, q) != 0 && (t == Head(s, q) || Since(s, t) < Since(s, Head(s, q))))
  }

  /** What `t` saved for `q` is the next older sleeper on it, NULL if there is none. */
  ghost predicate LinkOk(s: Sys, t: Task, q: Queue)
    requires Link(s, t, q).Some?
  {
    var b := Link(s, t, q).value;
    && (b != 0 ==> Link(s, b, q).Some? && Since(s, b) < Since(s, t))
    && (forall u: Task | Link(s, u, q).Some? && u != t && Since(s, u) <= Since(s, t) ::
          b != 0 && (u == b || Since(s, u) < Since(s, b)))
  }

  ghost predicate Chained(s: Sys) {
    && (forall q: Queue :: HeadOk(s, q))
    && (forall t: Task, q: Queue | Link(s, t, q).Some? :: LinkOk(s, t, q))
  }

  ghost predicate KeptOk(s: Sys, t: Task) {
    Waits(s, t) != [] ==> 1 <= t < NR_TASKS && Since(s, t) < s.clock && OncePerQueue(Waits(s, t))
  }

  ghost predicate Kept(s: Sys) {
    forall t: Task :: KeptOk(s, t)
  }

  /** A newer task on `q` is runnable, or has itself passed its wake on. */
  ghost predicate Backed(s: Sys, q: Queue, t: Task) {
    exists u: Task :: Link(s, u, q).Some? && Since(s, u) > Since(s, t) && Lively(s, u)
  }

  ghost predicate Stirring(s: Sys, q: Queue) {
    exists u: Task :: Link(s, u, q).Some? && Lively(s, u)
  }

  /** No wake is lost. */
  ghost predicate Wakeful(s: Sys) {
    && (forall t | t in s.chase :: Waits(s, t) != [] && (State(s, t).Running? || Backed(s, Waits(s, t)[0].queue, t)))
    && (forall q | q in s.woken :: Head(s, q) == 0 || Stirring(s, q))
  }

  ghost predicate Inv(s: Sys) { Chained(s) && Kept(s) && Wakeful(s) }

  // ---------------------------------------------------------------- the steps

  function SetState(s: Sys, t: Task, r: Run): Sys { s.(state := s.state[t := r]) }

  /** A task that waits for nothing begins to wait: it is newer than every sleeper. */
  function Begin(s: Sys, t: Task): Sys {
    s.(since := s.since[t := s.clock], clock := s.clock + 1)
  }

  ghost predicate Newest(s: Sys, t: Task) {
    Since(s, t) < s.clock && forall u: Task | Waits(s, u) != [] && u != t :: Since(s, u) < Since(s, t)
  }

  /** `tmp = *p; *p = current` */
  function Push(s: Sys, t: Task, q: Queue): Sys {
    s.(head := s.head[q := t],
       waits := s.waits[t := Waits(s, t) + [Entry(q, Head(s, q))]],
       woken := if Head(s, q) == 0 then s.woken - {q} else s.woken)
  }

  /** `if (*p = tmp) tmp->state = 0` */
  function Pop(s: Sys, t: Task): Sys
    requires Waits(s, t) != []
  {
    var e := Waits(s, t)[0];
    s.(head := s.head[e.queue := e.below],
       state := if e.below != 0 then s.state[e.below := Running] else s.state,
       waits := s.waits[t := Waits(s, t)[1..]],
       chase := s.chase - {t})
  }

  /** Somebody newer is on top: wake that task and go back to sleep. */
  function Yield(s: Sys, t: Task): Sys
    requires Waits(s, t) != []
  {
    var top := Head(s, Waits(s, t)[0].queue);
    s.(state := s.state[top := Running][t := Uninterruptible], chase := s.chase + {t})
  }

  function WakeUp(s: Sys, q: Queue): Sys {
    s.(state := if Head(s, q) != 0 then s.state[Head(s, q) := Running] else s.state, woken := s.woken + {q})
  }

  // ---------------------------------------------------------------- they keep the invariant

  lemma {:induction false} LinkOfAppend(w: seq<Entry>, e: Entry, q: Queue)
    ensures LinkOf(w + [e], q) == if LinkOf(w, q).Some? then LinkOf(w, q)
                                  else if e.queue == q then Some(e.below) else None
  {
    if w != [] {
      assert (w + [e])[1..] == w[1..] + [e];
      LinkOfAppend(w[1..], e, q);
    }
  }

  lemma {:induction false} DistinctAppend(w: seq<Entry>, e: Entry)
    requires OncePerQueue(w) && LinkOf(w, e.queue).None?
    ensures OncePerQueue(w + [e])
  {
    if w != [] {
      assert (w + [e])[1..] == w[1..] + [e];
      LinkOfAppend(w[1..], e, w[0].queue);
      DistinctAppend(w[1..], e);
    }
  }

  lemma BeginNewest(s: Sys, t: Task)
    requires Inv(s)
    ensures Newest(Begin(s, t), t)
  {
    hide Chained, Wakeful;
    var s' := Begin(s, t);
    forall u: Task | Waits(s', u) != [] && u != t ensures Since(s', u) < Since(s', t) { assert KeptOk(s, u); }
  }

  lemma NoLinks(s: Sys, t: Task)
    requires Waits(s, t) == []
    ensures forall q: Queue :: Link(s, t, q).None?
  {
  }

  /** Nothing but the since and clock fields changed, and those only for a task that is on no queue. */
  lemma BeginKeeps(s: Sys, t: Task)
    requires Inv(s) && Waits(s, t) == []
    ensures Inv(Begin(s, t)) && Newest(Begin(s, t), t)
  {
    hide Newest, Wakeful, LinkOf;
    var s' := Begin(s, t);
    BeginNewest(s, t);
    BeginWakes(s, t);
    NoLinks(s, t);
    forall u: Task ensures KeptOk(s', u) { assert KeptOk(s, u); }
    assert forall u: Task, q: Queue :: Link(s', u, q) == Link(s, u, q);
    forall q: Queue ensures HeadOk(s', q) { assert HeadOk(s, q); }
    forall u: Task, q: Queue | Link(s', u, q).Some? ensures LinkOk(s', u, q) { assert LinkOk(s, u, q); }
  }

  lemma BeginWakes(s: Sys, t: Task)
    requires Inv(s) && Waits(s, t) == []
    ensures Wakeful(Begin(s, t))
  {
    hide Chained, Kept, LinkOf;
    var s' := Begin(s, t);
    NoLinks(s, t);
    assert forall u: Task, q: Queue :: Link(s', u, q) == Link(s, u, q);
    forall u | u in s'.chase && !State(s', u).Running? ensures Backed(s', Waits(s', u)[0].queue, u) {
      var q := Waits(s, u)[0].queue;
      assert Backed(s, q, u);
      var v: Task :| Link(s, v, q).Some? && Since(s, v) > Since(s, u) && Lively(s, v);
      assert Link(s', v, q).Some? && Lively(s', v);
    }
    forall q | q in s'.woken && Head(s', q) != 0 ensures Stirring(s', q) {
      assert Stirring(s, q);
      var v: Task :| Link(s, v, q).Some? && Lively(s, v);
      assert Link(s', v, q).Some? && Lively(s', v);
    }
  }

  lemma PushLinks(s: Sys, t: Task, q: Queue)
    requires Inv(s) && Link(s, t, q).None?
    ensures forall r: Queue :: Link(Push(s, t, q), t, r) == if r == q then Some(Head(s, q)) else Link(s, t, r)
    ensures forall u: Task, r: Queue | u != t :: Link(Push(s, t, q), u, r) == Link(s, u, r)
    ensures OncePerQueue(Waits(Push(s, t, q), t))
  {
    hide Chained, Wakeful;
    var e := Entry(q, Head(s, q));
    assert KeptOk(s, t);
    DistinctAppend(Waits(s, t), e);
    forall r: Queue ensures Link(Push(s, t, q), t, r) == if r == q then Some(Head(s, q)) else Link(s, t, r) {
      LinkOfAppend(Waits(s, t), e, r);
    }
  }

  lemma PushKeeps(s: Sys, t: Task, q: Queue)
    requires Inv(s) && 1 <= t < NR_TASKS && Link(s, t, q).None? && Newest(s, t)
    ensures Inv(Push(s, t, q)) && Newest(Push(s, t, q), t)
  {
    hide HeadOk, LinkOk, LinkOf, OncePerQueue, Wakeful;
    var s' := Push(s, t, q);
    PushLinks(s, t, q);
    PushWakes(s, t, q);
    forall u: Task | Waits(s', u) != [] && u != t ensures Since(s', u) < Since(s', t) { assert Waits(s, u) != []; }
    forall u: Task ensures KeptOk(s', u) { assert KeptOk(s, u); }
    forall r: Queue ensures HeadOk(s', r) { PushHead(s, t, q, r); }
    forall u: Task, r: Queue | Link(s', u, r).Some? ensures LinkOk(s', u, r) { PushLink(s, t, q, u, r); }
  }

  lemma OlderThan(s: Sys, t: Task)
    requires Newest(s, t)
    ensures forall u: Task, r: Queue | Link(s, u, r).Some? && u != t :: Since(s, u) < Since(s, t)
  {
  }

  lemma PushHead(s: Sys, t: Task, q: Queue, r: Queue)
    requires Inv(s) && t != 0 && Link(s, t, q).None? && Newest(s, t)
    ensures HeadOk(Push(s, t, q), r)
  {
    hide Kept, Wakeful, LinkOf, LinkOk, OncePerQueue, Newest;
    PushLinks(s, t, q);
    OlderThan(s, t);
    assert HeadOk(s, r);
  }

  lemma PushLink(s: Sys, t: Task, q: Queue, u: Task, r: Queue)
    requires Inv(s) && t != 0 && Link(s, t, q).None? && Newest(s, t) && Link(Push(s, t, q), u, r).Some?
    ensures LinkOk(Push(s, t, q), u, r)
  {
    hide Inv, LinkOf, OncePerQueue, Newest;
    PushLinks(s, t, q);
    OlderThan(s, t);
    LinkFacts(s, u, r);
  }

  lemma LinkFacts(s: Sys, t: Task, q: Queue)
    requires Inv(s)
    ensures HeadOk(s, q) && (Link(s, t, q).Some? ==> LinkOk(s, t, q))
  {
    hide Kept, Wakeful, LinkOf, HeadOk, LinkOk;
  }

  lemma NotEmpty(w: seq<Entry>, q: Queue)
    requires LinkOf(w, q).Some?
    ensures w != []
  {
  }

  lemma PushWakes(s: Sys, t: Task, q: Queue)
    requires Inv(s) && Link(s, t, q).None?
    requires forall u: Task, r: Queue | Link(s, u, r).Some? :: Link(Push(s, t, q), u, r).Some?
    ensures Wakeful(Push(s, t, q))
  {
  }

  /** free_wait and __sleep_on never find NULL where they expect to find themselves. */
  lemma NeverNull(s: Sys, t: Task)
    requires Inv(s) && Waits(s, t) != []
    ensures Link(s, t, Waits(s, t)[0].queue).Some?
    ensures Head(s, Waits(s, t)[0].queue) != 0
    ensures Head(s, Waits(s, t)[0].queue) != t ==> Since(s, Head(s, Waits(s, t)[0].queue)) > Since(s, t)
  {
    var q := Waits(s, t)[0].queue;
    assert LinkOf(Waits(s, t), q) == Some(Waits(s, t)[0].below);
    assert Link(s, t, q).Some?;
    assert HeadOk(s, q);
  }

  lemma PopLinks(s: Sys, t: Task)
    requires Inv(s) && Waits(s, t) != []
    ensures var q := Waits(s, t)[0].queue;
            && Link(s, t, q) == Some(Waits(s, t)[0].below)
            && (forall r: Queue :: Link(Pop(s, t), t, r) == if r == q then None else Link(s, t, r))
            && (forall u: Task, r: Queue | u != t :: Link(Pop(s, t), u, r) == Link(s, u, r))
            && KeptOk(Pop(s, t), t)
  {
    hide Chained, Wakeful;
    assert KeptOk(s, t);
  }

  lemma PopKeeps(s: Sys, t: Task)
    requires Inv(s) && Waits(s, t) != [] && Head(s, Waits(s, t)[0].queue) == t && State(s, t).Running?
    ensures Inv(Pop(s, t))
  {
    hide HeadOk, LinkOk, Wakeful, LinkOf;
    var s' := Pop(s, t);
    PopLinks(s, t);
    PopWakes(s, t);
    forall u: Task ensures KeptOk(s', u) { assert KeptOk(s, u); }
    forall r: Queue ensures HeadOk(s', r) { PopHead(s, t, r); }
    forall u: Task, r: Queue | Link(s', u, r).Some? ensures LinkOk(s', u, r) { PopLink(s, t, u, r); }
  }

  lemma PopHead(s: Sys, t: Task, r: Queue)
    requires Inv(s) && Waits(s, t) != [] && Head(s, Waits(s, t)[0].queue) == t
    ensures HeadOk(Pop(s, t), r)
  {
    hide Kept, Wakeful, LinkOf;
    PopLinks(s, t);
    assert LinkOk(s, t, Waits(s, t)[0].queue) && HeadOk(s, Waits(s, t)[0].queue) && HeadOk(s, r);
  }

  lemma PopLink(s: Sys, t: Task, u: Task, r: Queue)
    requires Inv(s) && Waits(s, t) != [] && Head(s, Waits(s, t)[0].queue) == t && Link(Pop(s, t), u, r).Some?
    ensures LinkOk(Pop(s, t), u, r)
  {
    hide Kept, Wakeful, LinkOf;
    PopLinks(s, t);
    assert LinkOk(s, u, r) && HeadOk(s, Waits(s, t)[0].queue);
  }

  lemma PopWakes(s: Sys, t: Task)
    requires Inv(s) && Waits(s, t) != [] && Head(s, Waits(s, t)[0].queue) == t && State(s, t).Running?
    ensures Wakeful(Pop(s, t))
  {
    hide Kept, LinkOf, Backed, HeadOk;
    var s' := Pop(s, t);
    var q, b := Waits(s, t)[0].queue, Waits(s, t)[0].below;
    PopLinks(s, t);
    assert LinkOk(s, t, q);
    forall u | u in s'.chase ensures Waits(s', u) != []
         && (State(s', u).Running? || Backed(s', Waits(s', u)[0].queue, u)) {
      if !State(s', u).Running? { PopBacked(s, t, u); }
    }
    forall r | r in s'.woken && Head(s', r) != 0 ensures Stirring(s', r) {
      assert Stirring(s, r);
      if r == q {
        assert Link(s', b, q).Some? && Lively(s', b);
      } else {
        var v: Task :| Link(s, v, r).Some? && Lively(s, v);
        assert Link(s', v, r).Some? && Lively(s', v);
      }
    }
  }

  /** Whoever waits on `t` to leave is waited on by the next older sleeper afterwards. */
  lemma PopBacked(s: Sys, t: Task, u: Task)
    requires Inv(s) && Waits(s, t) != [] && Head(s, Waits(s, t)[0].queue) == t && State(s, t).Running?
    requires u in s.chase && u != t && !State(Pop(s, t), u).Running?
    ensures Waits(Pop(s, t), u) == Waits(s, u) != []
    ensures Backed(Pop(s, t), Waits(s, u)[0].queue, u)
  {
    hide LinkOf, Kept, HeadOk;
    PopLinks(s, t);
    NeverNull(s, u);
    assert LinkOk(s, t, Waits(s, t)[0].queue);
    assert Backed(s, Waits(s, u)[0].queue, u);
    BackedBelow(s, t, u, Waits(s, u)[0].queue);
  }

  lemma BackedBelow(s: Sys, t: Task, u: Task, r: Queue)
    requires Waits(s, t) != [] && u != t && Link(s, u, r).Some? && Backed(s, r, u)
    requires !State(Pop(s, t), u).Running?
    requires Link(s, t, Waits(s, t)[0].queue) == Some(Waits(s, t)[0].below)
    requires LinkOk(s, t, Waits(s, t)[0].queue)
    requires forall q: Queue :: Link(Pop(s, t), t, q) == if q == Waits(s, t)[0].queue then None else Link(s, t, q)
    requires forall v: Task, q: Queue | v != t :: Link(Pop(s, t), v, q) == Link(s, v, q)
    requires State(s, t).Running?
    ensures Backed(Pop(s, t), r, u)
  {
  }

  lemma YieldKeeps(s: Sys, t: Task)
    requires Inv(s) && Waits(s, t) != [] && Head(s, Waits(s, t)[0].queue) != t
    ensures Inv(Yield(s, t))
  {
    var s' := Yield(s, t);
    var q := Waits(s, t)[0].queue;
    var top := Head(s, q);
    NeverNull(s, t);
    SameQueues(s, s');
    assert forall u: Task | Lively(s, u) :: Lively(s', u);
    WakesKept(s, s');
    forall u | u in s'.chase && !State(s', u).Running?
      ensures Waits(s', u) != [] && Backed(s', Waits(s', u)[0].queue, u) {
      if u == t {
        assert HeadOk(s, q);
        assert Link(s', top, q).Some? && Since(s', top) > Since(s', t) && Lively(s', top);
      }
    }
  }

  lemma SameQueues(s: Sys, s': Sys)
    requires Inv(s)
    requires s'.head == s.head && s'.waits == s.waits && s'.since == s.since && s'.clock == s.clock
    ensures Chained(s') && Kept(s')
  {
    forall u: Task ensures KeptOk(s', u) { assert KeptOk(s, u); }
    assert forall u: Task, r: Queue :: Link(s', u, r) == Link(s, u, r);
    forall r: Queue ensures HeadOk(s', r) { assert HeadOk(s, r); }
    forall u: Task, r: Queue | Link(s', u, r).Some? ensures LinkOk(s', u, r) { assert LinkOk(s, u, r); }
  }

  /** Where tasks only become livelier, no wake is lost. */
  lemma WakesKept(s: Sys, s': Sys)
    requires Inv(s)
    requires s'.head == s.head && s'.waits == s.waits && s'.since == s.since
    requires forall u: Task | Lively(s, u) :: Lively(s', u)
    ensures forall u: Task | u in s.chase && !State(s, u).Running? :: Backed(s', Waits(s, u)[0].queue, u)
    ensures forall r: Queue | r in s.woken && Head(s, r) != 0 :: Stirring(s', r)
  {
  }

  lemma WakeUpKeeps(s: Sys, q: Queue)
    requires Inv(s)
    ensures Inv(WakeUp(s, q))
  {
    var s' := WakeUp(s, q);
    SameQueues(s, s');
    WakesKept(s, s');
    assert HeadOk(s, q);
    if Head(s, q) != 0 {
      assert Link(s', Head(s, q), q).Some? && Lively(s', Head(s, q));
    }
  }

  /** schedule() makes an interruptible task with a signal or an expired timeout runnable. */
  lemma SignalKeeps(s: Sys, t: Task)
    requires Inv(s)
    ensures Inv(SetState(s, t, Running))
  {
    SameQueues(s, SetState(s, t, Running));
    WakesKept(s, SetState(s, t, Running));
  }

  /** The state of a task that is on no queue does not matter. */
  lemma IdleKeeps(s: Sys, t: Task, r: Run)
    requires Inv(s) && Waits(s, t) == []
    ensures Inv(SetState(s, t, r))
    ensures Newest(s, t) ==> Newest(SetState(s, t, r), t)
  {
    hide Chained, Kept, LinkOf;
    var s' := SetState(s, t, r);
    if Newest(s, t) {
      forall u: Task | Waits(s', u) != [] && u != t ensures Since(s', u) < Since(s', t) { assert Waits(s, u) != []; }
    }
    SameQueues(s, s');
    forall q | q in s'.woken && Head(s', q) != 0 ensures Stirring(s', q) {
      assert Stirring(s, q);
      var v: Task :| Link(s, v, q).Some? && Lively(s, v);
      NotEmpty(Waits(s, v), q);
      assert Link(s', v, q).Some? && Lively(s', v);
    }
    forall u | u in s'.chase && !State(s', u).Running? ensures Backed(s', Waits(s', u)[0].queue, u) {
      var q := Waits(s, u)[0].queue;
      assert Backed(s, q, u);
      var v: Task :| Link(s, v, q).Some? && Since(s, v) > Since(s, u) && Lively(s, v);
      NotEmpty(Waits(s, v), q);
      assert Link(s', v, q).Some? && Lively(s', v);
    }
  }

  // ---------------------------------------------------------------- leaving the queues

  /** What a resumed task does before it calls schedule() again or goes on: it takes its entries off
      in order while it is on top, and yields to the top at the first queue where it is not. */
  function FreeWait(s: Sys, t: Task): Sys
    decreases |Waits(s, t)|
  {
    if Waits(s, t) == [] then s
    else if Head(s, Waits(s, t)[0].queue) != 0 && Head(s, Waits(s, t)[0].queue) != t then Yield(s, t)
    else FreeWait(Pop(s, t), t)
  }

  lemma {:induction false} FreeWaitKeeps(s: Sys, t: Task)
    requires Inv(s) && State(s, t).Running?
    ensures Inv(FreeWait(s, t))
    decreases |Waits(s, t)|
  {
    hide Inv;
    if Waits(s, t) != [] {
      NeverNull(s, t);
      if Head(s, Waits(s, t)[0].queue) == t {
        PopKeeps(s, t);
        FreeWaitKeeps(Pop(s, t), t);
      } else {
        YieldKeeps(s, t);
      }
    }
  }

  /** A task leaves a queue only from its top, and no other task's entry changes. */
  lemma {:induction false} OnlyTheTopLeaves(s: Sys, t: Task, u: Task, q: Queue)
    requires Inv(s) && State(s, t).Running?
    ensures u != t ==> Link(FreeWait(s, t), u, q) == Link(s, u, q)
    ensures Link(FreeWait(s, t), t, q) == Link(s, t, q)
         || (Link(FreeWait(s, t), t, q).None? && Head(s, q) == t && Head(FreeWait(s, t), q) == Link(s, t, q).value)
    ensures Head(FreeWait(s, t), q) == Head(s, q) || (Head(s, q) == t && Link(FreeWait(s, t), t, q).None?)
    decreases |Waits(s, t)|
  {
    hide Inv, LinkOf;
    if Waits(s, t) != [] {
      NeverNull(s, t);
      if Head(s, Waits(s, t)[0].queue) == t {
        PopLinks(s, t);
        PopKeeps(s, t);
        if Head(Pop(s, t), q) != 0 { HeadIsOn(Pop(s, t), q); }
        OnlyTheTopLeaves(Pop(s, t), t, u, q);
      }
    }
  }

  // ---------------------------------------------------------------- what the words mean

  /** The sleepers from `t` down, as the saved words list them. */
  ghost function Chain(s: Sys, t: Task, q: Queue): seq<Task>
    requires Inv(s) && (t != 0 ==> Link(s, t, q).Some?)
    decreases if t == 0 then 0 else Since(s, t) + 1
  {
    if t == 0 then []
    else
      assert LinkOk(s, t, q);
      [t] + Chain(s, Link(s, t, q).value, q)
  }

  lemma {:induction false} ChainLists(s: Sys, t: Task, q: Queue)
    requires Inv(s) && (t != 0 ==> Link(s, t, q).Some?)
    ensures forall u: Task :: u in Chain(s, t, q) <==>
              t != 0 && Link(s, u, q).Some? && (u == t || Since(s, u) < Since(s, t))
    decreases if t == 0 then 0 else Since(s, t) + 1
  {
    if t != 0 {
      hide LinkOf, Kept, Wakeful, HeadOk;
      assert LinkOk(s, t, q);
      var b := Link(s, t, q).value;
      ChainLists(s, b, q);
      assert Chain(s, t, q) == [t] + Chain(s, b, q);
    }
  }

  predicate NewestFirst(s: Sys, c: seq<Task>) {
    forall i, j | 0 <= i < j < |c| :: Since(s, c[i]) > Since(s, c[j])
  }

  lemma NewestFirstAbove(s: Sys, t: Task, r: seq<Task>)
    requires NewestFirst(s, r) && forall u | u in r :: Since(s, u) < Since(s, t)
    ensures NewestFirst(s, [t] + r)
  {
  }

  lemma {:induction false} ChainDescends(s: Sys, t: Task, q: Queue)
    requires Inv(s) && (t != 0 ==> Link(s, t, q).Some?)
    ensures NewestFirst(s, Chain(s, t, q))
    decreases if t == 0 then 0 else Since(s, t) + 1
  {
    if t != 0 {
      hide LinkOf, Kept, Wakeful, HeadOk, NewestFirst;
      assert LinkOk(s, t, q);
      var b := Link(s, t, q).value;
      ChainLists(s, b, q);
      ChainDescends(s, b, q);
      NewestFirstAbove(s, t, Chain(s, b, q));
    } else {
      assert Chain(s, t, q) == [];
    }
  }

  /** From the head of each queue, the saved words list exactly the tasks that wait on it, each once,
      newest first. */
  lemma QueueListsItsSleepers(s: Sys, q: Queue)
    requires Inv(s)
    ensures Head(s, q) != 0 ==> Link(s, Head(s, q), q).Some?
    ensures var c := Chain(s, Head(s, q), q);
            && (forall u: Task :: u in c <==> Link(s, u, q).Some?)
            && NewestFirst(s, c)
  {
    hide LinkOf, Kept, Wakeful, LinkOk;
    assert HeadOk(s, q);
    ChainLists(s, Head(s, q), q);
    ChainDescends(s, Head(s, q), q);
  }

  // ---------------------------------------------------------------- no wake is lost

  predicate Ready(s: Sys, t: Task) { Waits(s, t) != [] && State(s, t).Running? }

  /** A sleeper that passed its wake on waits, through ever newer sleepers, for one that can run. */
  lemma {:induction false} NoDeadlock(s: Sys, t: Task) returns (u: Task)
    requires Inv(s) && t in s.chase
    ensures Ready(s, u)
    decreases s.clock - Since(s, t)
  {
    hide Chained, LinkOf;
    if State(s, t).Running? {
      return t;
    }
    var q := Waits(s, t)[0].queue;
    u :| Link(s, u, q).Some? && Since(s, u) > Since(s, t) && Lively(s, u);
    NotEmpty(Waits(s, u), q);
    assert KeptOk(s, u);
    if !State(s, u).Running? {
      u := NoDeadlock(s, u);
    }
  }

  /** When no sleeper can run, no woken queue has sleepers left and nobody waits for a wake. */
  lemma Settled(s: Sys)
    requires Inv(s) && forall t: Task :: !Ready(s, t)
    ensures s.chase == {}
    ensures forall q | q in s.woken :: Head(s, q) == 0 && forall t: Task :: Link(s, t, q).None?
  {
    hide Chained, Kept, LinkOf;
    if t :| t in s.chase {
      var u := NoDeadlock(s, t);
    }
    assert s.chase == {};
    forall q: Queue | Head(s, q) != 0 ensures !Stirring(s, q) {
      forall u: Task ensures !(Link(s, u, q).Some? && Lively(s, u)) {
        if Link(s, u, q).Some? { NotEmpty(Waits(s, u), q); }
        assert !Ready(s, u);
      }
    }
    forall q: Queue | Head(s, q) == 0 ensures forall t: Task :: Link(s, t, q).None? { NoSleepers(s, q); }
  }

  lemma NoSleepers(s: Sys, q: Queue)
    requires Inv(s) && Head(s, q) == 0
    ensures forall t: Task :: Link(s, t, q).None?
  {
    assert HeadOk(s, q);
  }

  // ---------------------------------------------------------------- and every wake arrives

  function Entries(s: Sys, n: nat): nat {
    if n == 0 then 0 else |Waits(s, n - 1)| + Entries(s, n - 1)
  }

  function Weight(s: Sys, t: Task): nat {
    if Ready(s, t) && Since(s, t) < s.clock then s.clock - Since(s, t) else 0
  }

  function Weights(s: Sys, n: nat): nat {
    if n == 0 then 0 else Weight(s, n - 1) + Weights(s, n - 1)
  }

  lemma {:induction false} EntriesChange(s: Sys, s': Sys, t: Task, n: nat)
    requires forall u: Task | u != t :: Waits(s', u) == Waits(s, u)
    ensures Entries(s', n) + (if t < n then |Waits(s, t)| else 0)
            == Entries(s, n) + (if t < n then |Waits(s', t)| else 0)
  {
    if n > 0 { EntriesChange(s, s', t, n - 1); }
  }

  lemma {:induction false} WeightsChange(s: Sys, s': Sys, t: Task, top: Task, n: nat)
    requires t != top && forall u: Task | u != t && u != top :: Weight(s', u) == Weight(s, u)
    ensures Weights(s', n) + (if t < n then Weight(s, t) else 0) + (if top < n then Weight(s, top) else 0)
         == Weights(s, n) + (if t < n then Weight(s', t) else 0) + (if top < n then Weight(s', top) else 0)
  {
    if n > 0 { WeightsChange(s, s', t, top, n - 1); }
  }

  /** Each turn of a sleeper takes an entry off for good, or moves a wake to a newer sleeper. */
  lemma {:induction false} TurnMakesProgress(s: Sys, t: Task)
    requires Inv(s) && Ready(s, t)
    ensures var s' := FreeWait(s, t);
            Entries(s', NR_TASKS) < Entries(s, NR_TASKS)
            || (Entries(s', NR_TASKS) == Entries(s, NR_TASKS) && Weights(s', NR_TASKS) < Weights(s, NR_TASKS))
    decreases |Waits(s, t)|
  {
    hide Chained, Wakeful, LinkOf, OncePerQueue;
    assert KeptOk(s, t);
    NeverNull(s, t);
    var q := Waits(s, t)[0].queue;
    if Head(s, q) == t {
      var s1 := Pop(s, t);
      PopKeeps(s, t);
      EntriesChange(s, s1, t, NR_TASKS);
      if Ready(s1, t) {
        TurnMakesProgress(s1, t);
      }
    } else {
      var top, s' := Head(s, q), Yield(s, t);
      HeadIsOn(s, q);
      NotEmpty(Waits(s, top), q);
      assert KeptOk(s, top);
      EntriesChange(s, s', t, NR_TASKS);
      WeightsChange(s, s', t, top, NR_TASKS);
    }
  }

  lemma HeadIsOn(s: Sys, q: Queue)
    requires Inv(s) && Head(s, q) != 0
    ensures Link(s, Head(s, q), q).Some?
  {
    assert HeadOk(s, q);
  }
}
