/** __sleep_on and wake_up of kernel/sched.c, add_wait, free_wait and the waiting part of do_select
    of fs/select.c.  The processor changes hands only inside schedule(), so each method is the code
    a task runs between two calls of it, and a run of the system is any sequence of them. */
module SleepKernel {
  import opened Kernel
  import opened Wrappers
  import opened SleepQueues

  class WaitQueues {
    var head: map<Queue, Task>
    var state: map<Task, Run>
    var waits: map<Task, seq<Entry>>
    ghost var since: map<Task, nat>
    ghost var clock: nat
    ghost var chase: set<Task>
    ghost var woken: set<Queue>

    ghost function View(): Sys
      reads this
    {
      Sys(head, state, waits, since, clock, chase, woken)
    }

    ghost predicate Valid()
      reads this
    {
      Inv(View())
    }

    constructor ()
      ensures Valid() && head == map[] && waits == map[]
    {
      head, state, waits := map[], map[], map[];
      since, clock, chase, woken := map[], 0, {}, {};
    }

    function TopOf(q: Queue): Task
      reads this
    {
      if q in head then head[q] else 0
    }

    function Table(t: Task): seq<Entry>
      reads this
    {
      if t in waits then waits[t] else []
    }

    function Runs(t: Task): bool
      reads this
    {
      t !in state || state[t].Running?
    }

    /** __sleep_on up to its first call of schedule(). */
    method SleepOn(t: Task, q: Option<Queue>, r: Run)
      requires Valid() && 1 <= t < NR_TASKS && Table(t) == []
      modifies this
      ensures Valid()
      ensures View() == if q.None? then old(View()) else Push(SetState(Begin(old(View()), t), t, r), t, q.value)
    {
      hide Inv, LinkOf, Newest;
      if q.None? {
        return;
      }
      ghost var s := View();
      BeginKeeps(s, t);
      IdleKeeps(Begin(s, t), t, r);
      NoLinks(SetState(Begin(s, t), t, r), t);
      PushKeeps(SetState(Begin(s, t), t, r), t, q.value);
      since, clock := since[t := clock], clock + 1;
      var tmp := TopOf(q.value);
      woken := if tmp == 0 then woken - {q.value} else woken;
      head := head[q.value := t];
      waits := waits[t := [Entry(q.value, tmp)]];
      state := state[t := r];
      assert Waits(s, t) + [Entry(q.value, tmp)] == [Entry(q.value, tmp)];
    }

    /** __sleep_on from the return of schedule(): back to sleep, or done. */
    method ResumeSleep(t: Task) returns (done: bool)
      requires Valid() && Runs(t) && |Table(t)| == 1
      modifies this
      ensures Valid() && View() == FreeWait(old(View()), t)
      ensures done <==> Table(t) == []
      ensures done <==> old(TopOf(Table(t)[0].queue)) == t
    {
      hide Inv, LinkOf;
      ghost var s := View();
      FreeWaitKeeps(s, t);
      NeverNull(s, t);
      var q, tmp := Table(t)[0].queue, Table(t)[0].below;
      if TopOf(q) != 0 && TopOf(q) != t {
        state := state[TopOf(q) := Running][t := Uninterruptible];
        chase := chase + {t};
        return false;
      }
      head := head[q := tmp];
      if tmp != 0 {
        state := state[tmp := Running];
      }
      waits := waits[t := []];
      chase := chase - {t};
      assert Waits(s, t)[1..] == [];
      return true;
    }

    /** wake_up */
    method WakeUp(q: Option<Queue>)
      requires Valid()
      modifies this
      ensures Valid() && View() == if q.None? then old(View()) else SleepQueues.WakeUp(old(View()), q.value)
    {
      hide Inv;
      if q.Some? {
        WakeUpKeeps(View(), q.value);
        if TopOf(q.value) != 0 {
          state := state[TopOf(q.value) := Running];
        }
        woken := woken + {q.value};
      }
    }

    /** The part of schedule() that lets signals and timeouts interrupt a sleep. */
    method Signal(t: Task)
      requires Valid()
      modifies this`state
      ensures Valid()
      ensures View() == if old(State(View(), t)).Interruptible? then SetState(old(View()), t, Running) else old(View())
    {
      hide Inv;
      if t in state && state[t].Interruptible? {
        SignalKeeps(View(), t);
        state := state[t := Running];
      }
    }

    /** add_wait: at most one entry for a queue. */
    method AddWait(t: Task, q: Option<Queue>)
      requires Valid() && 1 <= t < NR_TASKS && Newest(View(), t)
      modifies this
      ensures Valid() && Newest(View(), t)
      ensures View() == if q.None? || Link(old(View()), t, q.value).Some? then old(View())
                        else Push(old(View()), t, q.value)
    {
      hide Inv;
      if q.None? {
        return;
      }
      var i := 0;
      while i < |Table(t)|
        invariant 0 <= i <= |Table(t)| && forall j | 0 <= j < i :: Table(t)[j].queue != q.value
      {
        if Table(t)[i].queue == q.value {
          FoundEntry(Table(t), i);
          return;
        }
        i := i + 1;
      }
      NoSuchEntry(Table(t), q.value);
      PushKeeps(View(), t, q.value);
      var old_task := TopOf(q.value);
      waits := waits[t := Table(t) + [Entry(q.value, old_task)]];
      woken := if old_task == 0 then woken - {q.value} else woken;
      head := head[q.value := t];
    }

    /** free_wait, from its start or from the return of the schedule() inside it. */
    method FreeWaits(t: Task) returns (done: bool)
      requires Valid() && Runs(t)
      modifies this
      ensures Valid() && View() == FreeWait(old(View()), t)
      ensures done <==> Table(t) == []
    {
      hide Inv, LinkOf;
      while Table(t) != []
        invariant Valid() && Runs(t) && FreeWait(View(), t) == FreeWait(old(View()), t)
        decreases |Table(t)|
      {
        ghost var s := View();
        NeverNull(s, t);
        var q := Table(t)[0].queue;
        if TopOf(q) != 0 && TopOf(q) != t {
          YieldKeeps(s, t);
          state := state[TopOf(q) := Running][t := Uninterruptible];
          chase := chase + {t};
          return false;
        }
        PopKeeps(s, t);
        var below := Table(t)[0].below;
        head := head[q := below];
        if below != 0 {
          state := state[below := Running];
        }
        waits := waits[t := Table(t)[1..]];
        chase := chase - {t};
        assert View() == Pop(s, t);
      }
      return true;
    }

    /** One round of do_select: the queues of the files that are not ready, then a sleep if none is
        ready; otherwise everything is taken off again at once. */
    method Select(t: Task, queues: seq<Option<Queue>>, wait: bool) returns (done: bool)
      requires Valid() && 1 <= t < NR_TASKS && Table(t) == [] && Runs(t)
      modifies this
      ensures Valid()
      ensures wait ==> !done && forall q: Queue :: Link(View(), t, q).Some? <==> Some(q) in queues
      ensures wait ==> State(View(), t).Interruptible?
      ensures !wait ==> done && Table(t) == []
      ensures forall u: Task, q: Queue | u != t :: Link(View(), u, q) == Link(old(View()), u, q)
    {
      hide Inv, LinkOf, Newest, OnTops;
      ghost var s := View();
      BeginKeeps(s, t);
      since, clock := since[t := clock], clock + 1;
      assert View() == Begin(s, t);
      NoLinks(View(), t);
      ghost var s0 := View();
      if wait {
        IdleKeeps(s0, t, Interruptible);
        state := state[t := Interruptible];
        assert View() == SetState(s0, t, Interruptible);
        NoLinks(View(), t);
      }
      NoTops(View(), t);
      var i := 0;
      while i < |queues|
        invariant 0 <= i <= |queues| && Valid() && Newest(View(), t)
        invariant state == if wait then s0.state[t := Interruptible] else s0.state
        invariant forall q: Queue :: Link(View(), t, q).Some? <==> Some(q) in queues[..i]
        invariant OnTops(View(), t)
        invariant forall u: Task, q: Queue | u != t :: Link(View(), u, q) == Link(s, u, q)
      {
        ghost var before := View();
        if queues[i].Some? && Link(before, t, queues[i].value).None? {
          PushLinks(before, t, queues[i].value);
          PushTops(before, t, queues[i].value);
        }
        AddWait(t, queues[i]);
        i := i + 1;
      }
      assert queues[..i] == queues;
      if wait {
        return false;
      }
      AllTops(View(), t);
      ghost var s1 := View();
      forall u: Task, q: Queue | u != t ensures Link(FreeWait(s1, t), u, q) == Link(s1, u, q)
      {
        OnlyTheTopLeaves(s1, t, u, q);
      }
      done := FreeWaits(t);
    }

    /** Any sleepers that can run, run, in any order, until none can: every queue that was woken is
        empty then, and nobody is left waiting for a wake. */
    method Settle()
      requires Valid()
      modifies this
      ensures Valid() && chase == {} && woken == old(woken)
      ensures forall q | q in old(woken) :: TopOf(q) == 0 && forall t: Task :: Link(View(), t, q).None?
      ensures forall t: Task, q: Queue :: Link(View(), t, q).Some? ==> Link(View(), t, q) == Link(old(View()), t, q)
    {
      hide Inv, LinkOf;
      var ready := set t | t in waits.Keys && waits[t] != [] && Runs(t);
      while ready != {}
        invariant Valid() && ready == (set t | t in waits.Keys && waits[t] != [] && Runs(t))
        invariant woken == old(woken)
        invariant forall t: Task, q: Queue :: Link(View(), t, q).Some? ==> Link(View(), t, q) == Link(old(View()), t, q)
        decreases Entries(View(), NR_TASKS), Weights(View(), NR_TASKS)
      {
        var t :| t in ready;
        ghost var s := View();
        TurnMakesProgress(s, t);
        forall u: Task, q: Queue ensures Link(FreeWait(s, t), u, q).Some? ==>
               Link(FreeWait(s, t), u, q) == Link(s, u, q) {
          OnlyTheTopLeaves(s, t, u, q);
        }
        WokenStays(s, t);
        var done := FreeWaits(t);
        ready := set t | t in waits.Keys && waits[t] != [] && Runs(t);
      }
      assert forall t: Task :: Ready(View(), t) ==> t in ready;
      Settled(View());
    }
  }

  lemma {:induction false} NoSuchEntry(w: seq<Entry>, q: Queue)
    requires forall j | 0 <= j < |w| :: w[j].queue != q
    ensures LinkOf(w, q).None?
  {
    if w != [] { NoSuchEntry(w[1..], q); }
  }

  lemma {:induction false} FoundEntry(w: seq<Entry>, i: nat)
    requires i < |w|
    ensures LinkOf(w, w[i].queue).Some?
  {
    if i > 0 && w[0].queue != w[i].queue { FoundEntry(w[1..], i - 1); }
  }

  ghost predicate OnTops(s: Sys, t: Task) {
    forall j | 0 <= j < |Waits(s, t)| :: Head(s, Waits(s, t)[j].queue) == t
  }

  lemma NoTops(s: Sys, t: Task)
    requires Waits(s, t) == []
    ensures OnTops(s, t)
  {
  }

  lemma PushTops(s: Sys, t: Task, q: Queue)
    requires OnTops(s, t)
    ensures OnTops(Push(s, t, q), t)
  {
  }

  /** A task that is on top of all its queues takes all its entries off without a pause. */
  lemma {:induction false} AllTops(s: Sys, t: Task)
    requires Inv(s) && State(s, t).Running?
    requires OnTops(s, t)
    ensures Waits(FreeWait(s, t), t) == []
    decreases |Waits(s, t)|
  {
    hide Inv;
    if Waits(s, t) != [] {
      PopKeeps(s, t);
      DistinctTail(s, t);
      AllTops(Pop(s, t), t);
    }
  }

  lemma DistinctTail(s: Sys, t: Task)
    requires Inv(s) && Waits(s, t) != []
    ensures forall j | 1 <= j < |Waits(s, t)| :: Waits(s, t)[j].queue != Waits(s, t)[0].queue
    ensures Waits(s, t)[0].below != t
  {
    var w := Waits(s, t);
    assert KeptOk(s, t);
    assert LinkOk(s, t, w[0].queue);
    forall j | 1 <= j < |w| ensures w[j].queue != w[0].queue {
      if w[j].queue == w[0].queue { FoundEntry(w[1..], j - 1); }
    }
  }

  lemma {:induction false} WokenStays(s: Sys, t: Task)
    ensures FreeWait(s, t).woken == s.woken
    decreases |Waits(s, t)|
  {
    if Waits(s, t) != [] { WokenStays(Pop(s, t), t); }
  }
}
