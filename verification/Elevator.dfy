/** The request queues of the block devices (kernel/blk_drv/ll_rw_blk.c, blk.h): 32 request slots,
    linked into one list per device; a buffer is locked before it is queued, so that no two queued
    requests have the same key.  A sleep ends the call; the caller comes back when it is woken. */
module Elevator {
  import opened Sequences
  import opened ElevatorOrder

  const NR_REQUEST := 32
  const NR_BLK_DEV := 7

  /** A request slot: free while dev < 0; `bh` and `next` are indices, -1 is NULL. */
  datatype Request = Request(dev: int, cmd: nat, sector: nat, bh: nat, next: int)

  datatype Buffer = Buffer(dev: nat, blocknr: nat, lock: bool, dirt: bool, uptodate: bool)

  /** MAJOR: device numbers hold the minor in their low byte. */
  function Major(dev: nat): (m: nat)
    ensures 256 * m <= dev < 256 * (m + 1)
  {
    dev / 256
  }

  function KeyOf(r: Request): Key
    requires r.dev >= 0
  {
    Key(r.cmd, r.dev, r.sector)
  }

  /** A list of slots, as the `next` words of the slots spell it from `head` on. */
  predicate Threaded(slots: seq<Request>, head: int, list: seq<nat>) {
    && head == (if list == [] then -1 else list[0])
    && (forall i | 0 <= i < |list| :: list[i] < |slots|)
    && forall i {:trigger slots[list[i]]} | 0 <= i < |list| ::
         slots[list[i]].next == if i + 1 < |list| then list[i + 1] else -1
  }

  predicate Queued(slots: seq<Request>, order: seq<seq<nat>>) {
    && (forall m, i | 0 <= m < |order| && 0 <= i < |order[m]| ::
          order[m][i] < |slots| && slots[order[m][i]].dev >= 0 && Major(slots[order[m][i]].dev) == m)
    && (forall k | 0 <= k < |slots| && slots[k].dev >= 0 ::
          Major(slots[k].dev) < |order| && k in order[Major(slots[k].dev)])
    && (forall m | 0 <= m < |order| :: Distinct(order[m]))
  }

  /** Every queued request is for its own locked buffer; every other locked buffer belongs to a task
      that waits for a free slot (`pending`). */
  ghost predicate Locked(slots: seq<Request>, buf: map<nat, Buffer>, slotOf: map<nat, nat>, pending: set<nat>) {
    && (forall k | 0 <= k < |slots| && slots[k].dev >= 0 ::
          slots[k].bh in slotOf && slotOf[slots[k].bh] == k && slots[k].cmd < 2)
    && (forall b | b in slotOf :: b in buf && b !in pending && slotOf[b] < |slots|
          && slots[slotOf[b]].bh == b && slots[slotOf[b]].dev == buf[b].dev
          && slots[slotOf[b]].sector == 2 * buf[b].blocknr)
    && (forall b | b in buf :: buf[b].lock <==> b in slotOf || b in pending)
    && pending <= buf.Keys
  }

  /** The buffer cache holds a block at most once. */
  predicate Unique(buf: map<nat, Buffer>) {
    && (forall b | b in buf :: buf[b].dev < DEVS && 2 * buf[b].blocknr < SECTORS)
    && (forall a, b | a in buf && b in buf && buf[a].dev != 0
                      && buf[a].dev == buf[b].dev && buf[a].blocknr == buf[b].blocknr :: a == b)
  }

  function RankOf(slots: seq<Request>, k: nat): nat {
    if k < |slots| && slots[k].dev >= 0 then Rank(KeyOf(slots[k])) else 0
  }

  function Ranks(slots: seq<Request>, list: seq<nat>): (q: seq<nat>)
    ensures |q| == |list| && forall i | 0 <= i < |q| :: q[i] == RankOf(slots, list[i])
  {
    seq(|list|, i requires 0 <= i < |list| => RankOf(slots, list[i]))
  }

  /** Locking a buffer before queueing it makes the keys of a queue distinct. */
  lemma KeysAreDistinct(slots: seq<Request>, order: seq<seq<nat>>, buf: map<nat, Buffer>, slotOf: map<nat, nat>,
                        pending: set<nat>, j: nat, k: nat)
    requires Queued(slots, order) && Locked(slots, buf, slotOf, pending) && Unique(buf)
    requires j < |slots| && k < |slots| && j != k && slots[j].dev > 0 && slots[k].dev > 0
    ensures ValidKey(KeyOf(slots[j])) && RankOf(slots, j) != RankOf(slots, k)
  {
    var a, b := slots[j].bh, slots[k].bh;
    assert slotOf[a] == j && slotOf[b] == k;
    RankIsOrder(KeyOf(slots[j]), KeyOf(slots[k]));
  }

  /** The lists of all devices, and what is queued in them. */
  ghost predicate Inv(slots: seq<Request>, current: seq<int>, order: seq<seq<nat>>, buf: map<nat, Buffer>,
                      slotOf: map<nat, nat>, pending: set<nat>) {
    && |slots| == NR_REQUEST && |current| == NR_BLK_DEV == |order|
    && order[0] == []
    && (forall m | 0 <= m < NR_BLK_DEV :: Threaded(slots, current[m], order[m]))
    && Queued(slots, order)
    && Locked(slots, buf, slotOf, pending)
    && Unique(buf)
    && (forall m | 0 <= m < NR_BLK_DEV :: TwoSweeps(Ranks(slots, order[m])))
  }

  // ---------------------------------------------------------------- lists of slots

  predicate SameButNext(slots: seq<Request>, slots': seq<Request>) {
    |slots'| == |slots| && forall j | 0 <= j < |slots| :: slots'[j] == slots[j].(next := slots'[j].next)
  }

  /** `k` linked in after place `i`. */
  function Put(list: seq<nat>, i: nat, k: nat): seq<nat> {
    if i < |list| then list[..i + 1] + [k] + list[i + 1..] else list + [k]
  }

  function Spliced(slots: seq<Request>, t: nat, k: nat): seq<Request>
    requires t < |slots| && k < |slots|
  {
    slots[k := slots[k].(next := slots[t].next)][t := slots[t].(next := k)]
  }

  lemma SpliceThread(slots: seq<Request>, head: int, list: seq<nat>, i: nat, k: nat)
    requires Threaded(slots, head, list) && i < |list| && k < |slots| && k !in list && Distinct(list)
    ensures Threaded(Spliced(slots, list[i], k), head, Put(list, i, k))
  {
  }

  lemma OtherThread(slots: seq<Request>, slots': seq<Request>, head: int, list: seq<nat>)
    requires Threaded(slots, head, list) && |slots'| == |slots|
    requires forall j | 0 <= j < |slots| && j in list :: slots'[j].next == slots[j].next
    ensures Threaded(slots', head, list)
  {
  }

  /** The ranks after a slot was put at place `i + 1`, as the elevator inserts them. */
  lemma RanksInsert(slots: seq<Request>, slots': seq<Request>, list: seq<nat>, k: nat)
    requires k < |slots'| == |slots| && k !in list
    requires forall j | 0 <= j < |slots| && j != k :: RankOf(slots', j) == RankOf(slots, j)
    ensures var q, r := Ranks(slots, list), RankOf(slots', k);
            Ranks(slots', Put(list, if list == [] then 0 else Stop(q, r, 0), k)) == Insert(q, r)
  {
    var q, r := Ranks(slots, list), RankOf(slots', k);
    if list != [] {
      var s := Stop(q, r, 0);
      var list' := Put(list, s, k);
      InsertAt(q, r);
      forall i | 0 <= i < |list'| ensures Ranks(slots', list')[i] == Insert(q, r)[i] {
        assert i <= s ==> list'[i] == list[i] && list[i] in list;
        assert i > s + 1 ==> list'[i] == list[i - 1] && list[i - 1] in list;
      }
    }
  }

  lemma SameRanks(slots: seq<Request>, slots': seq<Request>, list: seq<nat>)
    requires |slots'| == |slots| && forall j | j in list :: RankOf(slots', j) == RankOf(slots, j)
    ensures Ranks(slots', list) == Ranks(slots, list)
  {
  }

  // ---------------------------------------------------------------- queueing and finishing

  /** Slot `k` is filled in for the locked buffer `b`, which waits for its request. */
  predicate Ready(r: Request, b: nat, m: nat, buf: map<nat, Buffer>, pending: set<nat>) {
    && b in buf && b in pending && r.bh == b && r.cmd < 2
    && r.dev > 0 && r.dev == buf[b].dev && r.sector == 2 * buf[b].blocknr && Major(r.dev) == m
  }

  lemma ReadyIsNew(slots: seq<Request>, order: seq<seq<nat>>, buf: map<nat, Buffer>, slotOf: map<nat, nat>,
                   pending: set<nat>, k: nat, r: Request, b: nat, m: nat)
    requires Queued(slots, order) && Locked(slots, buf, slotOf, pending) && Unique(buf)
    requires k < |slots| && slots[k].dev < 0 && Ready(r, b, m, buf, pending) && 0 < m < |order|
    ensures forall i | 0 <= i < |order| :: k !in order[i]
    ensures ValidKey(KeyOf(r)) && Rank(KeyOf(r)) !in Ranks(slots, order[m]) && Distinct(Ranks(slots, order[m]))
    ensures forall i | 0 <= i < |order[m]| :: order[m][i] < |slots| && slots[order[m][i]].dev > 0
                                              && ValidKey(KeyOf(slots[order[m][i]]))
  {
    var list := order[m];
    forall i | 0 <= i < |list|
      ensures list[i] < |slots| && slots[list[i]].dev > 0 && ValidKey(KeyOf(slots[list[i]]))
      ensures RankOf(slots, list[i]) != Rank(KeyOf(r))
    {
      var j := list[i];
      assert slots[j].dev >= 0 && Major(slots[j].dev) == m;
      assert slotOf[slots[j].bh] == j;
      RankIsOrder(KeyOf(slots[j]), KeyOf(r));
    }
    forall i, j | 0 <= i < j < |list| ensures Ranks(slots, list)[i] != Ranks(slots, list)[j] {
      KeysAreDistinct(slots, order, buf, slotOf, pending, list[i], list[j]);
    }
  }

  lemma QueuedAdd(slots: seq<Request>, slots': seq<Request>, order: seq<seq<nat>>, m: nat, k: nat, list': seq<nat>)
    requires Queued(slots, order) && m < |order| && k < |slots| == |slots'| && slots[k].dev < 0
    requires slots'[k].dev >= 0 && Major(slots'[k].dev) == m
    requires forall j | 0 <= j < |slots| && j != k :: slots'[j].dev == slots[j].dev
    requires Distinct(list') && forall j :: j in list' <==> j in order[m] || j == k
    ensures Queued(slots', order[m := list'])
  {
    var order' := order[m := list'];
    forall n, i | 0 <= n < |order'| && 0 <= i < |order'[n]|
      ensures order'[n][i] < |slots'| && slots'[order'[n][i]].dev >= 0 && Major(slots'[order'[n][i]].dev) == n
    {
      var j := order'[n][i];
      assert j in order'[n];
      if n != m || j != k {
        assert j in order[n];
        var x :| 0 <= x < |order[n]| && order[n][x] == j;
      }
    }
  }

  lemma LockedAdd(slots: seq<Request>, slots': seq<Request>, buf: map<nat, Buffer>, slotOf: map<nat, nat>,
                  pending: set<nat>, k: nat, r: Request, b: nat, m: nat)
    requires Locked(slots, buf, slotOf, pending) && k < |slots| == |slots'| && slots[k].dev < 0
    requires Ready(r, b, m, buf, pending) && slots'[k] == r.(next := slots'[k].next)
    requires forall j | 0 <= j < |slots| && j != k :: slots'[j] == slots[j].(next := slots'[j].next)
    ensures Locked(slots', buf[b := buf[b].(dirt := false)], slotOf[b := k], pending - {b})
  {
  }

  lemma AddKeeps(slots: seq<Request>, slots': seq<Request>, current: seq<int>, current': seq<int>,
                 order: seq<seq<nat>>, buf: map<nat, Buffer>, slotOf: map<nat, nat>, pending: set<nat>,
                 m: nat, k: nat, r: Request, b: nat, s: nat)
    requires Inv(slots, current, order, buf, slotOf, pending)
    requires 0 < m < NR_BLK_DEV && k < NR_REQUEST == |slots'| && slots[k].dev < 0 && Ready(r, b, m, buf, pending)
    requires slots'[k] == r.(next := slots'[k].next)
    requires forall j | 0 <= j < |slots| && j != k :: slots'[j] == slots[j].(next := slots'[j].next)
    requires forall j | 0 <= j < |slots| && j != k && j !in order[m] :: slots'[j].next == slots[j].next
    requires |current'| == NR_BLK_DEV && forall n | 0 <= n < NR_BLK_DEV && n != m :: current'[n] == current[n]
    requires Threaded(slots', current'[m], Put(order[m], s, k))
    requires s == if order[m] == [] then 0 else Stop(Ranks(slots, order[m]), Rank(KeyOf(r)), 0)
    ensures var list' := Put(order[m], s, k);
            && Inv(slots', current', order[m := list'], buf[b := buf[b].(dirt := false)], slotOf[b := k], pending - {b})
            && Ranks(slots', list') == Insert(Ranks(slots, order[m]), Rank(KeyOf(r)))
  {
    hide Threaded, Locked, Queued, TwoSweeps, Put, Insert, Stop, Rank;
    var list, list' := order[m], Put(order[m], s, k);
    var order' := order[m := list'];
    ReadyIsNew(slots, order, buf, slotOf, pending, k, r, b, m);
    LockedAdd(slots, slots', buf, slotOf, pending, k, r, b, m);
    RanksInsert(slots, slots', list, k);
    InsertKeeps(Ranks(slots, list), RankOf(slots', k));
    ListAdd(list, s, k);
    QueuedAdd(slots, slots', order, m, k, list');
    forall n | 0 <= n < NR_BLK_DEV
      ensures Threaded(slots', current'[n], order'[n]) && TwoSweeps(Ranks(slots', order'[n]))
    {
      if n != m {
        Apart(slots, order, m, n);
        assert forall j | j in order[n] && j < |slots| :: slots'[j].next == slots[j].next;
        OtherThread(slots, slots', current[n], order[n]);
        SameRanks(slots, slots', order[n]);
      }
    }
  }

  /** No slot is in the queues of two devices. */
  lemma Apart(slots: seq<Request>, order: seq<seq<nat>>, m: nat, n: nat)
    requires Queued(slots, order) && m < |order| && n < |order| && m != n
    ensures forall j | j in order[n] :: j < |slots| && slots[j].dev >= 0 && j !in order[m]
  {
  }

  lemma ListAdd(list: seq<nat>, s: nat, k: nat)
    requires Distinct(list) && k !in list && (list != [] ==> s < |list|)
    ensures Distinct(Put(list, s, k)) && forall j :: j in Put(list, s, k) <==> j in list || j == k
  {
  }

  /** end_request: the slot at the head is free again and its buffer unlocked. */
  lemma EndKeeps(slots: seq<Request>, current: seq<int>, order: seq<seq<nat>>, buf: map<nat, Buffer>,
                 slotOf: map<nat, nat>, pending: set<nat>, m: nat, uptodate: bool)
    requires Inv(slots, current, order, buf, slotOf, pending) && m < NR_BLK_DEV && order[m] != []
    ensures var k := order[m][0]; var b := slots[k].bh;
            && current[m] == k && b in buf && b in slotOf && slotOf[b] == k && buf[b].lock
            && Inv(slots[k := slots[k].(dev := -1)], current[m := slots[k].next], order[m := order[m][1..]],
                   buf[b := buf[b].(lock := false, uptodate := uptodate)], slotOf - {b}, pending)
            && Ranks(slots[k := slots[k].(dev := -1)], order[m][1..]) == Ranks(slots, order[m])[1..]
  {
    hide Locked, Queued, Threaded, TwoSweeps, Unique, Rank, Distinct;
    var list := order[m];
    HeadFacts(slots, current, order, m);
    var k := list[0];
    var slots' := slots[k := slots[k].(dev := -1)];
    EndLocked(slots, buf, slotOf, pending, k, uptodate);
    SameBlock(buf, slots[k].bh, buf[slots[k].bh].(lock := false, uptodate := uptodate));
    EndQueued(slots, order, m);
    EndThread(slots, current[m], list);
    RanksDistinct(slots, current, order, buf, slotOf, pending, m);
    PopKeeps(Ranks(slots, list));
    EndRanks(slots, list);
    forall n | 0 <= n < NR_BLK_DEV && n != m
      ensures Threaded(slots', current[n], order[n]) && TwoSweeps(Ranks(slots', order[n]))
    {
      Apart(slots, order, n, m);
      assert k in order[m] && k !in order[n];
      OtherThread(slots, slots', current[n], order[n]);
      SameRanks(slots, slots', order[n]);
    }
  }

  lemma HeadFacts(slots: seq<Request>, current: seq<int>, order: seq<seq<nat>>, m: nat)
    requires m < |order| && m < |current| && order[m] != []
    requires Threaded(slots, current[m], order[m]) && Queued(slots, order)
    ensures var k := order[m][0]; current[m] == k < |slots| && slots[k].dev >= 0 && Major(slots[k].dev) == m
    ensures Distinct(order[m])
  {
  }

  lemma SameBlock(buf: map<nat, Buffer>, b: nat, x: Buffer)
    requires Unique(buf) && b in buf && x.dev == buf[b].dev && x.blocknr == buf[b].blocknr
    ensures Unique(buf[b := x])
  {
  }

  lemma EndRanks(slots: seq<Request>, list: seq<nat>)
    requires list != [] && list[0] < |slots| && Distinct(list)
    ensures Ranks(slots[list[0] := slots[list[0]].(dev := -1)], list[1..]) == Ranks(slots, list)[1..]
  {
  }

  lemma RanksDistinct(slots: seq<Request>, current: seq<int>, order: seq<seq<nat>>, buf: map<nat, Buffer>,
                      slotOf: map<nat, nat>, pending: set<nat>, m: nat)
    requires Inv(slots, current, order, buf, slotOf, pending) && m < NR_BLK_DEV
    ensures Distinct(Ranks(slots, order[m]))
  {
    hide Threaded, TwoSweeps, Locked, Unique, Rank;
    var list := order[m];
    forall i, j | 0 <= i < j < |list| ensures Ranks(slots, list)[i] != Ranks(slots, list)[j] {
      assert Major(slots[list[i]].dev) == m && Major(slots[list[j]].dev) == m;
      KeysAreDistinct(slots, order, buf, slotOf, pending, list[i], list[j]);
    }
  }

  lemma EndThread(slots: seq<Request>, head: int, list: seq<nat>)
    requires Threaded(slots, head, list) && list != [] && Distinct(list)
    ensures Threaded(slots[list[0] := slots[list[0]].(dev := -1)], slots[list[0]].next, list[1..])
  {
  }

  lemma EndQueued(slots: seq<Request>, order: seq<seq<nat>>, m: nat)
    requires Queued(slots, order) && m < |order| && order[m] != []
    ensures order[m][0] < |slots|
    ensures Queued(slots[order[m][0] := slots[order[m][0]].(dev := -1)], order[m := order[m][1..]])
  {
    var list := order[m];
    var k := list[0];
    var slots', order' := slots[k := slots[k].(dev := -1)], order[m := list[1..]];
    forall n, i | 0 <= n < |order'| && 0 <= i < |order'[n]|
      ensures order'[n][i] < |slots'| && slots'[order'[n][i]].dev >= 0 && Major(slots'[order'[n][i]].dev) == n
    {
      if n == m { assert order'[n][i] == list[i + 1] != k; }
    }
    forall j | 0 <= j < |slots'| && slots'[j].dev >= 0 ensures j in order'[Major(slots'[j].dev)] {
      if Major(slots'[j].dev) == m {
        var x :| 0 <= x < |list| && list[x] == j;
        assert list[1..][x - 1] == j;
      }
    }
  }

  lemma EndLocked(slots: seq<Request>, buf: map<nat, Buffer>, slotOf: map<nat, nat>, pending: set<nat>, k: nat,
                  uptodate: bool)
    requires Locked(slots, buf, slotOf, pending) && k < |slots| && slots[k].dev >= 0
    ensures var b := slots[k].bh;
            && b in slotOf && slotOf[b] == k && b in buf && buf[b].lock
            && Locked(slots[k := slots[k].(dev := -1)], buf[b := buf[b].(lock := false, uptodate := uptodate)],
                      slotOf - {b}, pending)
  {
  }

  lemma SetBuffer(slots: seq<Request>, current: seq<int>, order: seq<seq<nat>>, buf: map<nat, Buffer>,
                  slotOf: map<nat, nat>, pending: set<nat>, b: nat, x: Buffer, pending': set<nat>)
    requires Inv(slots, current, order, buf, slotOf, pending) && b in buf && b !in slotOf
    requires Unique(buf[b := x]) && pending' - {b} == pending - {b} && (x.lock <==> b in pending')
    ensures Inv(slots, current, order, buf[b := x], slotOf, pending')
  {
    hide Queued, Threaded, TwoSweeps, Rank, Unique, Distinct;
    assert forall c | c != b :: c in pending' <==> c in pending by {
      assert forall c | c != b :: c in pending' <==> c in pending' - {b};
      assert forall c | c != b :: c in pending <==> c in pending - {b};
    }
  }

  /** The test of add_request's loop: `req` goes between `tmp` and `next`. */
  predicate Test(req: Request, tmp: Request, next: Request)
    requires req.dev >= 0 && tmp.dev >= 0 && next.dev >= 0
  {
    (InOrder(KeyOf(tmp), KeyOf(req)) || !InOrder(KeyOf(tmp), KeyOf(next))) && InOrder(KeyOf(req), KeyOf(next))
  }

  lemma TestIsFits(slots: seq<Request>, head: int, list: seq<nat>, r: Request, i: nat)
    requires Threaded(slots, head, list) && i < |list| && r.dev >= 0 && ValidKey(KeyOf(r))
    requires forall j | 0 <= j < |list| ::
               list[j] < |slots| && slots[list[j]].dev > 0 && ValidKey(KeyOf(slots[list[j]]))
    ensures list[i] < |slots| && slots[list[i]].next == if i + 1 < |list| then list[i + 1] else -1
    ensures i + 1 < |list| ==>
              list[i + 1] < |slots| && slots[list[i]].dev >= 0 && slots[list[i + 1]].dev >= 0
              && (Test(r, slots[list[i]], slots[list[i + 1]]) <==> Fits(Ranks(slots, list), Rank(KeyOf(r)), i))
  {
  }

  lemma {:induction false} StopIs(q: seq<nat>, r: nat, i: nat)
    requires i < |q| && (forall k | 0 <= k < i :: !Fits(q, r, k)) && (i + 1 < |q| ==> Fits(q, r, i))
    ensures Stop(q, r, 0) == i
  {
  }

  /** Writes may only use the first two thirds of the requests. */
  function Usable(rw: nat): nat {
    if rw == READ then NR_REQUEST else NR_REQUEST * 2 / 3
  }

  /** A read has to wait only when all 32 requests are in use, a write when the first 21 are. */
  predicate Crowded(slots: seq<Request>, rw: nat) {
    forall j | 0 <= j < |slots| && (rw == READ || j < 21) :: slots[j].dev >= 0
  }

  /** The last third of the requests holds reads only. */
  predicate ReadsKept(slots: seq<Request>) {
    forall j | 21 <= j < |slots| && slots[j].dev >= 0 :: slots[j].cmd == READ
  }

  datatype Outcome =
    | Done                       // queued, or there was nothing to do
    | WaitForBuffer              // sleeps until the buffer is unlocked, then starts again
    | WaitForRequest             // sleeps until a request is free, holding the locked buffer

  class BlockDevices {
    const request: array<Request>
    const current: array<int>          // blk_dev[major].current_request
    const drivers: set<nat>            // devices with a request_fn
    var buf: map<nat, Buffer>
    ghost var order: seq<seq<nat>>     // the queue of each device, as slot numbers
    ghost var slotOf: map<nat, nat>
    ghost var pending: set<nat>

    ghost predicate Valid()
      reads this, request, current
    {
      && Inv(request[..], current[..], order, buf, slotOf, pending) && ReadsKept(request[..])
      && (forall m | m in drivers :: 0 < m < NR_BLK_DEV)
    }

    /** The keys queued for device `m`, in the order in which they will be served. */
    ghost function Queue(m: nat): seq<nat>
      requires m < |order|
      reads this, request
    {
      Ranks(request[..], order[m])
    }

    /** blk_dev_init */
    constructor (buf: map<nat, Buffer>, drivers: set<nat>)
      requires Unique(buf) && (forall b | b in buf :: !buf[b].lock) && forall m | m in drivers :: 0 < m < NR_BLK_DEV
      ensures Valid() && fresh(request) && fresh(current)
      ensures forall m | 0 <= m < NR_BLK_DEV :: Queue(m) == []
    {
      request := new Request[NR_REQUEST](_ => Request(-1, 0, 0, 0, -1));
      current := new int[NR_BLK_DEV](_ => -1);
      this.buf, this.drivers := buf, drivers;
      order := seq(NR_BLK_DEV, _ => []);
      slotOf, pending := map[], {};
    }

    /** The loop of add_request: the slot after which `k` goes in the queue of device `m`. */
    method FindPlace(m: nat, k: nat, ghost list: seq<nat>) returns (tmp: nat, ghost i: nat)
      requires m < current.Length && k < request.Length && request[k].dev >= 0 && ValidKey(KeyOf(request[k]))
      requires Threaded(request[..], current[m], list) && list != []
      requires forall j | 0 <= j < |list| ::
                 list[j] < request.Length && request[list[j]].dev > 0 && ValidKey(KeyOf(request[list[j]]))
      ensures i < |list| && tmp == list[i] && i == Stop(Ranks(request[..], list), Rank(KeyOf(request[k])), 0)
    {
      hide Threaded, Rank, Distinct, InOrder, Fits;
      ghost var slots, r := request[..], request[k];
      ThreadFacts(slots, current[m], list);
      tmp := current[m];
      i := 0;
      TestIsFits(slots, current[m], list, r, i);
      while request[tmp].next != -1 && !Test(request[k], request[tmp], request[request[tmp].next])
        invariant 0 <= i < |list| && tmp == list[i]
        invariant forall j | 0 <= j < i :: !Fits(Ranks(slots, list), Rank(KeyOf(r)), j)
        invariant slots[tmp].next == if i + 1 < |list| then list[i + 1] else -1
        invariant i + 1 < |list| ==>
                    list[i + 1] < |slots| && slots[tmp].dev >= 0 && slots[list[i + 1]].dev >= 0
                    && (Test(r, slots[tmp], slots[list[i + 1]]) <==> Fits(Ranks(slots, list), Rank(KeyOf(r)), i))
        modifies {}
        decreases |list| - i
      {
        tmp := request[tmp].next;
        i := i + 1;
        TestIsFits(slots, current[m], list, r, i);
      }
      StopIs(Ranks(slots, list), Rank(KeyOf(r)), i);
    }

    /** The links that add_request sets. */
    method LinkIn(m: nat, k: nat, ghost list: seq<nat>) returns (ghost stop: nat)
      requires m < current.Length && k < request.Length && request[k].dev >= 0 && ValidKey(KeyOf(request[k]))
      requires request[k].next == -1 && k !in list && Distinct(list)
      requires Threaded(request[..], current[m], list)
      requires forall j | 0 <= j < |list| ::
                 list[j] < request.Length && request[list[j]].dev > 0 && ValidKey(KeyOf(request[list[j]]))
      modifies request, current
      ensures stop == if list == [] then 0 else Stop(Ranks(old(request[..]), list), Rank(KeyOf(old(request[k]))), 0)
      ensures Threaded(request[..], current[m], Put(list, stop, k))
      ensures forall n | 0 <= n < current.Length && n != m :: current[n] == old(current[n])
      ensures forall j | 0 <= j < request.Length ::
                request[j] == old(request[j]).(next := request[j].next)
                && (j != k && j !in list ==> request[j] == old(request[j]))
    {
      hide Threaded, Rank, Distinct, Put, Ranks, Stop, KeyOf, ValidKey;
      ThreadFacts(request[..], current[m], list);
      stop := 0;
      if current[m] == -1 {
        current[m] := k;
        OneThread(request[..], k, list);
      } else {
        var tmp, i := FindPlace(m, k, list);
        stop := i;
        SpliceThread(request[..], current[m], list, i, k);
        Splice(tmp, k);
      }
    }

    /** add_request: links the filled-in slot `k` into the queue of device `m`. */
    method AddRequest(m: nat, k: nat, ghost s0: seq<Request>)
      requires 0 < m < NR_BLK_DEV && k < NR_REQUEST == request.Length && current.Length == NR_BLK_DEV
      requires Inv(s0, current[..], order, buf, slotOf, pending) && s0[k].dev < 0
      requires request[..] == s0[k := request[k]] && request[k].next == -1
      requires Ready(request[k], request[k].bh, m, buf, pending)
      modifies this, request, current
      ensures Inv(request[..], current[..], order, buf, slotOf, pending)
      ensures Added(s0, old(order), request[..], order, m, k, old(request[k]))
      ensures ReadsKept(old(request[..])) ==> ReadsKept(request[..])
      ensures var b := old(request[k].bh);
              b in old(buf) && buf == old(buf)[b := old(buf)[b].(dirt := false)]
              && slotOf == old(slotOf)[b := k] && pending == old(pending) - {b}
    {
      hide Locked, Queued, Threaded, TwoSweeps, Unique, Rank, Distinct, Insert, Put, Ranks, Added;
      ghost var r, list, heads := request[k], order[m], current[..];
      var bh := request[k].bh;
      ReadyIsNew(s0, order, buf, slotOf, pending, k, r, bh, m);
      ThreadFacts(s0, current[m], list);
      OtherThread(s0, request[..], current[m], list);
      SameRanks(s0, request[..], list);
      DistinctLists(s0, order, m);
      ghost var stop := LinkIn(m, k, list);
      AddKeeps(s0, request[..], heads, current[..], order, buf, slotOf, pending, m, k, r, bh, stop);
      AddedFrom(s0, order, request[..], m, k, r, stop);
      buf := buf[bh := buf[bh].(dirt := false)];
      order := order[m := Put(list, stop, k)];
      slotOf, pending := slotOf[bh := k], pending - {bh};
    }

    /** The insertion itself. */
    method Splice(tmp: nat, k: nat)
      requires tmp < request.Length && k < request.Length && tmp != k
      modifies request
      ensures request[..] == Spliced(old(request[..]), tmp, k)
    {
      request[k] := request[k].(next := request[tmp].next);
      request[tmp] := request[tmp].(next := k);
    }

    /** The half of make_request after its label `repeat`: the last free slot is filled in and queued. */
    method TakeSlot(m: nat, rw: nat, b: nat, ahead: bool) returns (r: Outcome, ghost k: nat)
      requires Valid() && 0 < m < NR_BLK_DEV && rw < 2 && b in pending && Major(buf[b].dev) == m && buf[b].dev > 0
      modifies this, request, current
      ensures Valid()
      ensures b in old(buf) && b !in old(slotOf) && !r.WaitForBuffer? && request.Length == NR_REQUEST
      ensures r.Done? && b in slotOf ==>
                buf == old(buf)[b := old(buf)[b].(dirt := false)] && pending == old(pending) - {b}
                && Added(old(request[..]), old(order), request[..], order, m, k,
                         Request(old(buf)[b].dev, rw, 2 * old(buf)[b].blocknr, b, -1))
      ensures r.Done? && b !in slotOf ==>
                ahead && buf == old(buf)[b := old(buf)[b].(lock := false)] && pending == old(pending) - {b}
      ensures r.WaitForRequest? ==> b !in slotOf && buf == old(buf) && pending == old(pending)
      ensures b !in slotOf ==> request[..] == old(request[..]) && order == old(order)
      ensures b !in slotOf ==> Crowded(old(request[..]), rw) && (r.Done? <==> ahead)
      ensures b in slotOf ==>
                k < request.Length && (rw == READ || k < 21) && old(request[k]).dev < 0
                && forall j | k < j < request.Length && (rw == READ || j < 21) :: old(request[j]).dev >= 0
    {
      hide Locked, Queued, Threaded, TwoSweeps, Unique, Rank, Distinct, Insert, Ranks, Added;
      PendingFacts(request[..], buf, slotOf, pending, b);
      k := 0;
      var req: int := Usable(rw);
      req := req - 1;
      while req >= 0 && request[req].dev >= 0
        invariant -1 <= req < Usable(rw)
        invariant forall j | req < j < Usable(rw) :: request[j].dev >= 0
      {
        req := req - 1;
      }
      if req < 0 {
        if ahead {
          Unlock(b);
          return Done, k;
        }
        return WaitForRequest, k;
      }
      k := req;
      ghost var s0 := request[..];
      request[req] := Request(buf[b].dev, rw, 2 * buf[b].blocknr, b, -1);
      AddRequest(m, req, s0);
      return Done, k;
    }

    /** unlock_buffer of a buffer that is not queued. */
    method Unlock(b: nat)
      requires Valid() && b in pending
      modifies this`buf, this`pending
      ensures Valid() && pending == old(pending) - {b}
      ensures b in old(buf) && buf == old(buf)[b := old(buf)[b].(lock := false)]
    {
      hide Queued, Threaded, TwoSweeps, Unique, Rank, Distinct, Ranks;
      SameBlock(buf, b, buf[b].(lock := false));
      SetBuffer(request[..], current[..], order, buf, slotOf, pending, b, buf[b].(lock := false), pending - {b});
      buf := buf[b := buf[b].(lock := false)];
      pending := pending - {b};
    }

    /** lock_buffer; false when the caller has to sleep first. */
    method LockBuffer(b: nat) returns (ok: bool)
      requires Valid() && b in buf
      modifies this`buf, this`pending
      ensures Valid() && b in old(buf) && (ok <==> !old(buf)[b].lock)
      ensures ok ==> b !in slotOf && pending == old(pending) + {b} && buf == old(buf)[b := old(buf)[b].(lock := true)]
      ensures !ok ==> buf == old(buf) && pending == old(pending)
    {
      hide Queued, Threaded, TwoSweeps, Unique, Rank, Distinct, Ranks;
      if buf[b].lock {
        return false;
      }
      SlotFacts(request[..], buf, slotOf, pending, b);
      SameBlock(buf, b, buf[b].(lock := true));
      SetBuffer(request[..], current[..], order, buf, slotOf, pending, b, buf[b].(lock := true), pending + {b});
      buf := buf[b := buf[b].(lock := true)];
      pending := pending + {b};
      return true;
    }

    /** ll_rw_block and make_request; `ahead` is set for READA and WRITEA. */
    method LlRwBlock(rw: nat, ahead: bool, b: nat) returns (r: Outcome, ghost k: nat)
      requires Valid() && rw < 2 && b in buf
      modifies this, request, current
      ensures Valid()
      ensures b in slotOf && b !in old(slotOf) ==>
                r.Done? && Major(old(buf)[b].dev) in drivers
                && (if rw == WRITE then old(buf)[b].dirt else !old(buf)[b].uptodate)
                && buf == old(buf)[b := old(buf)[b].(lock := true, dirt := false)]
                && Added(old(request[..]), old(order), request[..], order, Major(old(buf)[b].dev), k,
                         Request(old(buf)[b].dev, rw, 2 * old(buf)[b].blocknr, b, -1))
      ensures b !in slotOf || b in old(slotOf) ==> request[..] == old(request[..]) && order == old(order)
      ensures r.WaitForBuffer? <==> old(buf)[b].lock && !ahead && Major(old(buf)[b].dev) in drivers
      ensures (r.Done? && b !in slotOf) || r.WaitForBuffer? ==> buf == old(buf)
      ensures r.Done? && b !in slotOf ==>
                Major(old(buf)[b].dev) !in drivers || (ahead && (old(buf)[b].lock || Crowded(request[..], rw)))
                || (if rw == WRITE then !old(buf)[b].dirt else old(buf)[b].uptodate)
      ensures r.WaitForRequest? ==>
                b !in slotOf && !ahead && b in pending && Crowded(request[..], rw)
                  && buf == old(buf)[b := old(buf)[b].(lock := true)]
    {
      hide Inv, Rank, Ranks, Added, Insert;
      k := 0;
      ghost var buf0 := buf;
      var major := Major(buf[b].dev);
      if major >= NR_BLK_DEV || major !in drivers {
        return Done, k;
      }
      if ahead && buf[b].lock {
        return Done, k;
      }
      var ok := LockBuffer(b);
      if !ok {
        return WaitForBuffer, k;
      }
      assert buf0[b := buf0[b].(lock := true)][b := buf0[b]] == buf0;
      if (rw == WRITE && !buf[b].dirt) || (rw == READ && buf[b].uptodate) {
        Unlock(b);
        return Done, k;
      }
      r, k := TakeSlot(major, rw, b, ahead);
    }

    /** end_request for the request in service on device `m`. */
    method EndRequest(m: nat, uptodate: bool)
      requires Valid() && m < NR_BLK_DEV && order[m] != []
      modifies this, request, current
      ensures Valid() && m < |order| == |old(order)|
      ensures Queue(m) == old(Queue(m))[1..]
      ensures old(order)[m][0] < request.Length && request[old(order)[m][0]].dev < 0
      ensures order == old(order)[m := old(order)[m][1..]]
      ensures var b := old(request[..])[old(order)[m][0]].bh;
              b in old(buf) && buf == old(buf)[b := old(buf)[b].(lock := false, uptodate := uptodate)]
    {
      hide Queued, Threaded, Locked, TwoSweeps, Unique, Rank, Distinct, Ranks;
      EndKeeps(request[..], current[..], order, buf, slotOf, pending, m, uptodate);
      HeadFacts(request[..], current[..], order, m);
      var k := current[m];
      var bh := request[k].bh;
      ghost var slots, heads := request[..], current[..];
      buf := buf[bh := buf[bh].(lock := false, uptodate := uptodate)];
      request[k] := request[k].(dev := -1);
      current[m] := request[k].next;
      slotOf := slotOf - {bh};
      order := order[m := order[m][1..]];
      assert request[..] == slots[k := slots[k].(dev := -1)];
      assert current[..] == heads[m := slots[k].next];
    }

    /** getblk gives an unlocked buffer to another block, which no buffer holds. */
    method Reassign(b: nat, dev: nat, blocknr: nat)
      requires Valid() && b in buf && !buf[b].lock && dev < DEVS && 2 * blocknr < SECTORS
      requires forall c | c in buf :: buf[c].dev != dev || buf[c].blocknr != blocknr
      modifies this`buf
      ensures Valid()
      ensures buf == old(buf)[b := Buffer(dev, blocknr, false, false, false)]
    {
      hide Queued, Threaded, TwoSweeps, Rank, Distinct, Ranks;
      SetBuffer(request[..], current[..], order, buf, slotOf, pending, b, Buffer(dev, blocknr, false, false, false),
        pending);
      buf := buf[b := Buffer(dev, blocknr, false, false, false)];
    }
  }

  lemma SlotFacts(slots: seq<Request>, buf: map<nat, Buffer>, slotOf: map<nat, nat>, pending: set<nat>, b: nat)
    requires Locked(slots, buf, slotOf, pending) && b in buf
    ensures b in slotOf ==> buf[b].lock
  {
  }

  lemma PendingFacts(slots: seq<Request>, buf: map<nat, Buffer>, slotOf: map<nat, nat>, pending: set<nat>, b: nat)
    requires Locked(slots, buf, slotOf, pending) && b in pending
    ensures b in buf && buf[b].lock && b !in slotOf
  {
  }

  /** The queue of device `m` gained request `r` where the elevator puts it; the others are as before. */
  predicate Added(slots: seq<Request>, order: seq<seq<nat>>, slots': seq<Request>, order': seq<seq<nat>>,
                  m: nat, k: nat, r: Request)
  {
    && |order'| == |order| && m < |order| && r.dev >= 0 && k in order'[m]
    && Ranks(slots', order'[m]) == Insert(Ranks(slots, order[m]), Rank(KeyOf(r)))
    && forall j | 0 <= j < |order| && j != m ::
         order'[j] == order[j] && Ranks(slots', order[j]) == Ranks(slots, order[j])
  }

  lemma AddedFrom(slots: seq<Request>, order: seq<seq<nat>>, slots': seq<Request>, m: nat, k: nat, r: Request, s: nat)
    requires Queued(slots, order) && m < |order| && k < |slots| == |slots'| && slots[k].dev < 0 && r.dev >= 0
    requires order[m] != [] ==> s < |order[m]|
    requires Ranks(slots', Put(order[m], s, k)) == Insert(Ranks(slots, order[m]), Rank(KeyOf(r)))
    requires forall j | 0 <= j < |slots| && j != k :: slots'[j] == slots[j].(next := slots'[j].next)
    ensures Added(slots, order, slots', order[m := Put(order[m], s, k)], m, k, r)
  {
  }

  lemma DistinctLists(slots: seq<Request>, order: seq<seq<nat>>, m: nat)
    requires Queued(slots, order) && m < |order|
    ensures Distinct(order[m])
  {
  }

  lemma ThreadFacts(slots: seq<Request>, head: int, list: seq<nat>)
    requires Threaded(slots, head, list)
    ensures head == -1 <==> list == []
    ensures list != [] ==> head == list[0]
    ensures forall i | 0 <= i < |list| :: list[i] < |slots|
  {
  }

  lemma OneThread(slots: seq<Request>, k: nat, list: seq<nat>)
    requires k < |slots| && slots[k].next == -1 && list == []
    ensures Threaded(slots, k, Put(list, 0, k))
  {
  }
}
