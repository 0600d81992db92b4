/** The choice of the next task and the counters (kernel/sched.c: the second half of schedule, and the end of
    do_timer). */
module Scheduler {
  import opened Kernel
  import opened MathWords
  import opened Wrappers

  datatype Task = Task(counter: int, priority: int, running: bool)

  type Table = seq<Option<Task>>

  predicate Runs(ts: Table, i: nat) {
    1 <= i < |ts| && ts[i].Some? && ts[i].value.running
  }

  function Counter(ts: Table, i: nat): int {
    if i < |ts| && ts[i].Some? then ts[i].value.counter else 0
  }

  function Priority(ts: Table, i: nat): int {
    if 1 <= i < |ts| && ts[i].Some? then ts[i].value.priority else 1
  }

  /** Priorities are positive and counters stay below twice the priority; task 0, which is never recharged, may have
      any time left. */
  predicate Fair(ts: Table) {
    && |ts| == NR_TASKS && Counter(ts, 0) >= 0
    && forall i | 1 <= i < NR_TASKS && ts[i].Some? ::
         ts[i].value.priority >= 1 && 0 <= ts[i].value.counter < 2 * ts[i].value.priority
  }

  function Recharge(t: Option<Task>): Option<Task> {
    if t.None? then None else Some(t.value.(counter := t.value.counter / 2 + t.value.priority))
  }

  /** All counters recharged but that of task 0. */
  function Recharged(ts: Table): Table {
    seq(|ts|, i requires 0 <= i < |ts| => if i == 0 then ts[i] else Recharge(ts[i]))
  }

  lemma RechargeKeeps(ts: Table)
    requires Fair(ts)
    ensures Fair(Recharged(ts)) && forall i | 1 <= i < NR_TASKS && ts[i].Some? :: Counter(Recharged(ts), i) >= 1
  {
  }

  /** What a task lacks of twice its priority is halved, rounding up. */
  lemma RechargeGap(ts: Table, i: nat)
    requires Fair(ts) && 1 <= i < NR_TASKS && ts[i].Some?
    ensures 2 * Priority(ts, i) - Counter(Recharged(ts), i) == (2 * Priority(ts, i) - Counter(ts, i) + 1) / 2
    ensures Priority(Recharged(ts), i) == Priority(ts, i) && Recharged(ts)[0] == ts[0]
  {
  }

  function RechargedTimes(ts: Table, n: nat): Table
    decreases n
  {
    if n == 0 then ts else RechargedTimes(Recharged(ts), n - 1)
  }

  /** A task that sleeps through recharges saves up time: after enough of them it has all it can have. */
  lemma {:induction false} SleeperFills(ts: Table, i: nat, n: nat)
    requires Fair(ts) && 1 <= i < NR_TASKS && ts[i].Some? && 2 * Priority(ts, i) - Counter(ts, i) <= Pow2(n)
    ensures Counter(RechargedTimes(ts, n), i) == 2 * Priority(ts, i) - 1
    decreases n
  {
    if n > 0 {
      RechargeKeeps(ts);
      RechargeGap(ts, i);
      SleeperFills(Recharged(ts), i, n - 1);
    }
  }

  /** A sleeper with some time left goes before every task of its priority that has run until its time was spent. */
  lemma SleeperFirst(ts: Table, i: nat, j: nat)
    requires Fair(ts) && 1 <= i < NR_TASKS && 1 <= j < NR_TASKS && ts[i].Some? && ts[j].Some?
    requires Priority(ts, i) >= Priority(ts, j) && Counter(ts, j) == 0
    ensures Counter(Recharged(ts), j) == Priority(ts, j)
    ensures Counter(ts, i) >= 2 ==> Counter(Recharged(ts), i) > Counter(Recharged(ts), j)
  {
  }

  /** Somebody can run, and everybody who can has used up his time. */
  ghost predicate Spent(ts: Table) {
    (exists i :: Runs(ts, i)) && forall i | Runs(ts, i) :: Counter(ts, i) == 0
  }

  /** The table schedule leaves. */
  ghost function Charged(ts: Table): Table {
    if Spent(ts) then Recharged(ts) else ts
  }

  /** `n` is a runnable task with the most time left, 0 if none is runnable. */
  ghost predicate Chosen(ts: Table, n: nat) {
    if n == 0 then forall i :: !Runs(ts, i)
    else Runs(ts, n) && Counter(ts, n) > 0 && forall i | Runs(ts, i) :: Counter(ts, i) <= Counter(ts, n)
  }

  class Processor {
    var task: array<Option<Task>>
    var current: nat

    ghost predicate Valid()
      reads this, task
    {
      Fair(task[..]) && current < NR_TASKS && task[0].Some? && task[current].Some?
    }

    constructor ()
      ensures Valid() && fresh(task) && current == 0 && task[0] == Some(Task(15, 15, true))
    {
      task := new Option<Task>[NR_TASKS](i => if i == 0 then Some(Task(15, 15, true)) else None);
      current := 0;
    }

    /** sys_nice: only the superuser may raise the priority, which stays positive unless it is lowered by exactly
        itself. */
    method Nice(increment: int, superuser: bool) returns (ok: bool)
      requires Valid() && current >= 1
      modifies task
      ensures ok <==> increment >= 0 || superuser
      ensures !ok ==> task[..] == old(task[..])
      ensures ok ==> task[current].Some?
                     && (task[current].value.priority >= 1 <==> increment != old(task[current].value.priority))
      ensures ok ==>
                task[..] == old(task[..])[current :=
                    Some(old(task[current].value).(priority := task[current].value.priority))]
      ensures ok ==> var p := old(task[current].value.priority);
                     task[current].value.priority == if increment > p then 1 else p - increment
    {
      if increment < 0 && !superuser {
        return false;
      }
      var t := task[current].value;
      var d := if increment > t.priority then t.priority - 1 else increment;
      task[current] := Some(t.(priority := t.priority - d));
      return true;
    }

    /** One scan of the table from the end: the most time left, and who has it. */
    method Scan() returns (c: int, next: nat)
      requires Valid()
      ensures next < NR_TASKS && (next == 0 <==> c == -1) && -1 <= c
      ensures next != 0 ==> Runs(task[..], next) && Counter(task[..], next) == c
      ensures forall i | Runs(task[..], i) :: Counter(task[..], i) <= c
    {
      c, next := -1, 0;
      var i := NR_TASKS - 1;
      while i > 0
        invariant 0 <= i < NR_TASKS && next < NR_TASKS && (next == 0 <==> c == -1) && -1 <= c
        invariant next != 0 ==> Runs(task[..], next) && Counter(task[..], next) == c
        invariant forall k | i < k < NR_TASKS && Runs(task[..], k) :: Counter(task[..], k) <= c
        modifies {}
      {
        if task[i].Some? && task[i].value.running && task[i].value.counter > c {
          c, next := task[i].value.counter, i;
        }
        i := i - 1;
      }
    }

    /** The loop of schedule that recharges everybody. */
    method RechargeAll()
      requires Valid()
      modifies task
      ensures Valid() && task[..] == Recharged(old(task[..]))
    {
      RechargeKeeps(task[..]);
      var i := NR_TASKS - 1;
      while i > 0
        invariant 0 <= i < NR_TASKS
        invariant forall k | 0 <= k < NR_TASKS :: task[k] == if k > i then Recharge(old(task[k])) else old(task[k])
      {
        if task[i].Some? {
          task[i] := Some(task[i].value.(counter := task[i].value.counter / 2 + task[i].value.priority));
        }
        i := i - 1;
      }
      assert task[..] == Recharged(old(task[..]));
    }

    /** schedule, from its comment "this is the scheduler proper" on: it recharges at most once, and only when
        all runnable tasks have used up their time. */
    method Schedule()
      requires Valid()
      modifies this, task
      ensures Valid() && task == old(task)
      ensures task[..] == Charged(old(task[..])) && Chosen(task[..], current)
    {
      ghost var ts, rounds := task[..], 0;
      while true
        invariant Valid() && task == old(task) && rounds <= 1
        invariant if rounds == 0 then task[..] == ts else Spent(ts) && task[..] == Recharged(ts)
        decreases 1 - rounds
      {
        var c, next := Scan();
        current := next;
        if c != 0 { break; }
        assert Runs(task[..], next);
        RechargeKeeps(ts);
        assert rounds == 1 ==> Counter(Recharged(ts), next) >= 1;
        RechargeAll();
        rounds := rounds + 1;
      }
      RechargeKeeps(ts);
      assert rounds == 1 ==> forall i :: Runs(Recharged(ts), i) <==> Runs(ts, i);
      assert rounds == 0 && Spent(ts) ==> current == 0;
      assert task[0].Some?;
    }

    /** The end of do_timer: the running task, task 0 too, pays for the tick; in user mode it may lose the
        processor. */
    method Tick(user: bool)
      requires Valid()
      modifies this, task
      ensures Valid() && task == old(task)
      ensures var paid := Paid(old(task[..]), old(current));
              if Counter(paid, old(current)) > 0 || !user then task[..] == paid && current == old(current)
              else task[..] == Charged(paid) && Chosen(task[..], current)
    {
      var t := task[current].value;
      ghost var ts := task[..];
      task[current] := Some(t.(counter := if t.counter - 1 > 0 then t.counter - 1 else 0));
      assert task[..] == Paid(ts, current);
      if t.counter - 1 > 0 { return; }
      if !user { return; }
      Schedule();
    }
  }

  /** One tick off the counter, not below zero. */
  function Paid(ts: Table, n: nat): Table {
    if n < |ts| && ts[n].Some? then
      ts[n := Some(ts[n].value.(counter := if ts[n].value.counter - 1 > 0 then ts[n].value.counter - 1 else 0))]
    else ts
  }

  // ---------------------------------------------------------------- how long a runnable task waits

  datatype State = State(ts: Table, current: nat)
  datatype Event = UserTick | KernelTick | Reschedule | SetRun(task: nat, runs: bool)

  /** What one event does. */
  ghost predicate Step(s: State, e: Event, s': State) {
    match e
    case UserTick =>
      && s.current < |s.ts| && s.ts[s.current].Some?
      && var paid := Paid(s.ts, s.current);
         if Counter(paid, s.current) > 0 then s' == State(paid, s.current)
         else s'.ts == Charged(paid) && Chosen(s'.ts, s'.current)
    case KernelTick => s' == State(Paid(s.ts, s.current), s.current)
    case Reschedule => s'.ts == Charged(s.ts) && Chosen(s'.ts, s'.current)
    case SetRun(i, b) =>
      1 <= i < |s.ts| && s.ts[i].Some? && s' == s.(ts := s.ts[i := Some(s.ts[i].value.(running := b))])
  }

  function Total(list: seq<int>): int {
    if list == [] then 0 else list[0] + Total(list[1..])
  }

  lemma {:induction false} TotalLe(a: seq<int>, b: seq<int>)
    requires |a| == |b| && forall i | 0 <= i < |a| :: a[i] <= b[i]
    ensures Total(a) <= Total(b)
  {
    if a != [] { TotalLe(a[1..], b[1..]); }
  }

  lemma {:induction false} TotalUpdate(a: seq<int>, k: nat, v: int)
    requires k < |a|
    ensures Total(a[k := v]) == Total(a) - a[k] + v
  {
    if k > 0 {
      TotalUpdate(a[1..], k - 1, v);
      assert a[k := v][1..] == a[1..][k - 1 := v];
    } else {
      assert a[0 := v][1..] == a[1..];
    }
  }

  /** The time left to all but one task and task 0. */
  function Left(ts: Table, t: nat): seq<int> {
    seq(|ts|, i requires 0 <= i < |ts| => if i == t || i == 0 then 0 else Counter(ts, i))
  }

  /** The most that they can have. */
  function Most(ts: Table, t: nat): seq<int> {
    seq(|ts|, i requires 0 <= i < |ts| => if i == t || i == 0 || ts[i].None? then 0 else 2 * Priority(ts, i) - 1)
  }

  /** The user-mode ticks that can pass before `t` is picked. */
  function Patience(s: State, t: nat): int {
    (if Counter(s.ts, t) == 0 then Total(Most(s.ts, t)) else 0) + Total(Left(s.ts, t)) + Counter(s.ts, 0) + Idle(s, t)
  }

  /** One more tick when the running task has no time left. */
  function Idle(s: State, t: nat): int {
    if s.current < |s.ts| && s.current != t && s.ts[s.current].Some? && Counter(s.ts, s.current) == 0 then 1 else 0
  }

  /** What task 0 can add to a wait: its own time, or one tick when it has none. */
  function IdleTime(ts: Table): int {
    if Counter(ts, 0) > 0 then Counter(ts, 0) else 1
  }

  /** Charging keeps priorities, raises `t` above zero, and fits under the most. */
  lemma ChargedFacts(ts: Table, t: nat)
    requires Fair(ts) && Runs(ts, t) && Spent(ts)
    ensures Fair(Recharged(ts)) && Counter(ts, t) == 0 && Counter(Recharged(ts), t) > 0
    ensures Most(Recharged(ts), t) == Most(ts, t) && Total(Left(Recharged(ts), t)) <= Total(Most(ts, t))
  {
    RechargeKeeps(ts);
    LeftFits(Recharged(ts), t);
    assert Most(Recharged(ts), t) == Most(ts, t);
  }

  lemma LeftFits(ts: Table, t: nat)
    requires Fair(ts)
    ensures Total(Left(ts, t)) <= Total(Most(ts, t))
  {
    TotalLe(Left(ts, t), Most(ts, t));
  }

  lemma LeftNonNegative(ts: Table, t: nat)
    requires Fair(ts)
    ensures Total(Left(ts, t)) >= 0 && Total(Most(ts, t)) >= 0
  {
    var zero := seq(|ts|, _ => 0);
    TotalLe(zero, Left(ts, t));
    TotalLe(zero, Most(ts, t));
    TotalZero(|ts|);
  }

  lemma {:induction false} TotalZero(n: nat)
    ensures Total(seq(n, _ => 0)) == 0
  {
    if n > 0 {
      TotalZero(n - 1);
      assert seq(n, _ => 0)[1..] == seq(n - 1, _ => 0);
    }
  }

  lemma PaidFacts(ts: Table, n: nat, t: nat)
    requires Fair(ts) && n < NR_TASKS && ts[n].Some? && n != t && t >= 1
    ensures Fair(Paid(ts, n)) && Most(Paid(ts, n), t) == Most(ts, t) && Counter(Paid(ts, n), t) == Counter(ts, t)
    ensures Total(Left(Paid(ts, n), t)) + Counter(Paid(ts, n), 0)
            == Total(Left(ts, t)) + Counter(ts, 0) - (if Counter(ts, n) > 0 then 1 else 0)
    ensures Counter(Paid(ts, n), n) == (if Counter(ts, n) > 0 then Counter(ts, n) - 1 else 0)
    ensures forall i :: Runs(Paid(ts, n), i) <==> Runs(ts, i)
  {
    var ts' := Paid(ts, n);
    assert Most(ts', t) == Most(ts, t);
    if n == 0 {
      assert Left(ts', t) == Left(ts, t);
    } else {
      TotalUpdate(Left(ts, t), n, Counter(ts', n));
      assert Left(ts', t) == Left(ts, t)[n := Counter(ts', n)];
    }
  }

  /** After schedule the running task has time left, so nothing is wasted. */
  lemma ScheduleFacts(ts: Table, s': State, t: nat)
    requires Fair(ts) && Runs(ts, t) && s'.ts == Charged(ts) && Chosen(s'.ts, s'.current)
    ensures Fair(s'.ts) && Most(s'.ts, t) == Most(ts, t) && Idle(s', t) == 0 && Counter(s'.ts, 0) == Counter(ts, 0)
    ensures (if Counter(s'.ts, t) == 0 then Total(Most(ts, t)) else 0) + Total(Left(s'.ts, t))
            <= (if Counter(ts, t) == 0 then Total(Most(ts, t)) else 0) + Total(Left(ts, t))
  {
    assert Runs(s'.ts, t);
    if Spent(ts) {
      ChargedFacts(ts, t);
      LeftNonNegative(ts, t);
    }
  }

  /** While `t` is runnable and not picked, each user-mode tick uses up some patience and nothing adds any. */
  lemma StepUses(s: State, e: Event, s': State, t: nat)
    requires Fair(s.ts) && Step(s, e, s') && Runs(s.ts, t) && s.current != t && (e.SetRun? ==> e.task != t)
    ensures Fair(s'.ts) && Most(s'.ts, t) == Most(s.ts, t)
    ensures Patience(s', t) + (if e.UserTick? then 1 else 0) <= Patience(s, t)
  {
    match e
    case UserTick =>
      var paid := Paid(s.ts, s.current);
      PaidFacts(s.ts, s.current, t);
      if Counter(paid, s.current) == 0 { ScheduleFacts(paid, s', t); }
    case KernelTick =>
      if s.current < NR_TASKS && s.ts[s.current].Some? { PaidFacts(s.ts, s.current, t); }
    case Reschedule => ScheduleFacts(s.ts, s', t);
    case SetRun(i, b) =>
      assert Left(s'.ts, t) == Left(s.ts, t) && Most(s'.ts, t) == Most(s.ts, t);
  }

  lemma PatienceBound(s: State, t: nat)
    requires Fair(s.ts)
    ensures Patience(s, t) <= 2 * Total(Most(s.ts, t)) + IdleTime(s.ts)
  {
    LeftFits(s.ts, t);
    LeftNonNegative(s.ts, t);
    if Idle(s, t) == 1 && s.current > 0 {
      var more := Left(s.ts, t)[s.current := 1];
      TotalUpdate(Left(s.ts, t), s.current, 1);
      TotalLe(more, Most(s.ts, t));
    }
  }

  ghost predicate Run(states: seq<State>, events: seq<Event>) {
    |states| == |events| + 1 && forall i | 0 <= i < |events| :: Step(states[i], events[i], states[i + 1])
  }

  function UserTicks(events: seq<Event>): nat {
    if events == [] then 0 else (if events[0].UserTick? then 1 else 0) + UserTicks(events[1..])
  }

  /** `t` stays runnable and is never picked. */
  ghost predicate PassedOver(states: seq<State>, events: seq<Event>, t: nat) {
    && (forall i | 0 <= i < |states| :: Runs(states[i].ts, t) && states[i].current != t)
    && forall i | 0 <= i < |events| :: events[i].SetRun? ==> events[i].task != t
  }

  lemma {:induction false} PatienceLasts(states: seq<State>, events: seq<Event>, t: nat)
    requires Run(states, events) && PassedOver(states, events, t) && Fair(states[0].ts)
    ensures UserTicks(events) + Patience(states[|events|], t) <= Patience(states[0], t) && Fair(states[|events|].ts)
    decreases |events|
  {
    if events != [] {
      assert Step(states[0], events[0], states[1]) && Runs(states[0].ts, t);
      StepUses(states[0], events[0], states[1], t);
      hide Step, Patience, Fair;
      PatienceLasts(states[1..], events[1..], t);
    }
  }

  /** With the set of tasks and their priorities fixed, a runnable task is picked before more user-mode ticks pass
      than twice the sum of 2p - 1 over the other tasks and what task 0 has left. */
  lemma BoundedWait(states: seq<State>, events: seq<Event>, t: nat)
    requires Run(states, events) && Fair(states[0].ts)
             && UserTicks(events) > 2 * Total(Most(states[0].ts, t)) + IdleTime(states[0].ts)
    requires forall i | 0 <= i < |states| :: Runs(states[i].ts, t)
    requires forall i | 0 <= i < |events| :: events[i].SetRun? ==> events[i].task != t
    ensures exists i :: 0 <= i < |states| && states[i].current == t
  {
    if PassedOver(states, events, t) {
      PatienceLasts(states, events, t);
      PatienceBound(states[0], t);
      LeftNonNegative(states[|events|].ts, t);
    }
  }
}
