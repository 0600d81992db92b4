/** The order in which the disk queue serves requests (kernel/blk_drv/ll_rw_blk.c, blk.h), over the
    keys (cmd, dev, sector) of the queued requests; the list of requests itself is in `Elevator`. */
module ElevatorOrder {
  import opened Sequences

  const READ := 0
  const WRITE := 1

  datatype Key = Key(cmd: nat, dev: nat, sector: nat)

  /** IN_ORDER */
  predicate InOrder(a: Key, b: Key) {
    || a.cmd < b.cmd
    || (a.cmd == b.cmd && (a.dev < b.dev || (a.dev == b.dev && a.sector < b.sector)))
  }

  const DEVS: nat := 0x1_0000
  const SECTORS: nat := 0x1_0000_0000

  /** cmd is READ or WRITE, b_dev is 16 bits wide and sector 32. */
  predicate ValidKey(k: Key) { k.cmd < 2 && k.dev < DEVS && k.sector < SECTORS }

  function Rank(k: Key): (r: nat)
    ensures ValidKey(k) ==> r < 2 * DEVS * SECTORS
  {
    (k.cmd * DEVS + k.dev) * SECTORS + k.sector
  }

  /** IN_ORDER is the order of the ranks; keys with one rank are equal. */
  lemma RankIsOrder(a: Key, b: Key)
    requires ValidKey(a) && ValidKey(b)
    ensures InOrder(a, b) <==> Rank(a) < Rank(b)
    ensures Rank(a) == Rank(b) ==> a == b
  {
  }

  predicate Descent(q: seq<nat>, i: nat) {
    i + 1 < |q| && q[i] >= q[i + 1]
  }

  /** At most one place where the head turns back: the queue is at most two ascending sweeps. */
  predicate TwoSweeps(q: seq<nat>) {
    forall i, j | 0 <= i < |q| && 0 <= j < |q| && Descent(q, i) && Descent(q, j) :: i == j
  }

  predicate Fits(q: seq<nat>, r: nat, i: nat)
    requires i + 1 < |q|
  {
    (q[i] < r || !(q[i] < q[i + 1])) && r < q[i + 1]
  }

  /** The request after which add_request puts one of rank `r`, searching from `i` on. */
  function Stop(q: seq<nat>, r: nat, i: nat): (s: nat)
    requires i < |q|
    ensures i <= s < |q|
    ensures s + 1 < |q| ==> Fits(q, r, s)
    ensures forall k | i <= k < s :: !Fits(q, r, k)
    decreases |q| - i
  {
    if i + 1 == |q| || Fits(q, r, i) then i else Stop(q, r, i + 1)
  }

  function Insert(q: seq<nat>, r: nat): seq<nat> {
    if q == [] then [r] else q[..Stop(q, r, 0) + 1] + [r] + q[Stop(q, r, 0) + 1..]
  }

  /** Past the turning point, a request that fits nowhere is larger than everything. */
  lemma {:induction false} LargerThanRest(q: seq<nat>, r: nat, d: nat, k: nat)
    requires Distinct(q) && r !in q && TwoSweeps(q) && Descent(q, d) && d < k < |q|
    requires forall i | 0 <= i < |q| - 1 :: !Fits(q, r, i)
    ensures q[k] < r
    decreases k
  {
    if k == d + 1 {
      assert !Fits(q, r, d);
    } else {
      LargerThanRest(q, r, d, k - 1);
      assert !Fits(q, r, k - 1);
    }
  }

  lemma InsertAt(q: seq<nat>, r: nat)
    requires q != []
    ensures var s, q' := Stop(q, r, 0), Insert(q, r);
            |q'| == |q| + 1
            && forall i | 0 <= i < |q'| :: q'[i] == if i <= s then q[i] else if i == s + 1 then r else q[i - 1]
  {
  }

  /** A request is added, and none is lost. */
  lemma InsertAll(q: seq<nat>, r: nat)
    ensures multiset(Insert(q, r)) == multiset(q) + multiset{r}
  {
    if q != [] {
      assert q == q[..Stop(q, r, 0) + 1] + q[Stop(q, r, 0) + 1..];
    }
  }

  lemma InsertDistinct(q: seq<nat>, r: nat)
    requires Distinct(q) && r !in q
    ensures Distinct(Insert(q, r))
  {
  }

  /** Adding a request keeps the queue in two sweeps and never displaces the one in service. */
  lemma InsertKeeps(q: seq<nat>, r: nat)
    requires Distinct(q) && r !in q && TwoSweeps(q)
    ensures TwoSweeps(Insert(q, r)) && (q != [] ==> Insert(q, r)[0] == q[0])
  {
    if q != [] {
      InsertAt(q, r);
      var s, q' := Stop(q, r, 0), Insert(q, r);
      if s + 1 == |q| {
        if d :| 0 <= d < |q| && Descent(q, d) { LargerThanRest(q, r, d, s); }
      }
      forall i | 0 <= i < |q'| && Descent(q', i) ensures Turn(q, r, s, i) {}
    }
  }

  /** Where a turning point of the longer queue comes from. */
  predicate Turn(q: seq<nat>, r: nat, s: nat, i: nat) {
    || (i < s && Descent(q, i))
    || (i == s && (Descent(q, s) || s + 1 == |q|))
    || (i > s + 1 && Descent(q, i - 1))
  }

  /** Serving the request at the head. */
  lemma PopKeeps(q: seq<nat>)
    requires q != [] && Distinct(q) && TwoSweeps(q)
    ensures Distinct(q[1..]) && TwoSweeps(q[1..])
  {
    assert forall i | 0 <= i < |q[1..]| :: Descent(q[1..], i) ==> Descent(q, i + 1);
  }

  // ---------------------------------------------------------------- no request is overtaken forever

  predicate IsEnd(q: seq<nat>, e: nat) {
    e < |q| && (forall i | 0 <= i < e :: !Descent(q, i)) && (e + 1 == |q| || Descent(q, e))
  }

  /** The last request of the first sweep. */
  function SweepEnd(q: seq<nat>, i: nat): (e: nat)
    requires i < |q| && forall k | 0 <= k < i :: !Descent(q, k)
    ensures IsEnd(q, e)
    decreases |q| - i
  {
    if i + 1 == |q| || Descent(q, i) then i else SweepEnd(q, i + 1)
  }

  /** How far the head still has to travel before it serves the request at `p`: to it, or to the end
      of this sweep and then to it from sector 0. */
  function Distance(q: seq<nat>, p: nat): int
    requires p < |q|
  {
    var e := SweepEnd(q, 0);
    if p <= e then q[p] as int - q[0] as int else q[e] as int - q[0] as int + 1 + q[p]
  }

  lemma {:induction false} Ascends(q: seq<nat>, i: nat, j: nat)
    requires i <= j < |q| && forall k | i <= k < j :: !Descent(q, k)
    ensures q[i] <= q[j]
    decreases j
  {
    if i < j {
      assert !Descent(q, j - 1);
      Ascends(q, i, j - 1);
    }
  }

  lemma DistanceBounded(q: seq<nat>, p: nat, bound: nat)
    requires p < |q| && forall i | 0 <= i < |q| :: q[i] < bound
    ensures 0 <= Distance(q, p) <= 2 * bound
  {
    var e := SweepEnd(q, 0);
    Ascends(q, 0, e);
    if p <= e { Ascends(q, 0, p); }
  }

  /** Later requests never put anything between the head and a queued request that was not on its way. */
  lemma InsertDistance(q: seq<nat>, r: nat, p: nat)
    requires Distinct(q) && r !in q && TwoSweeps(q) && p < |q|
    ensures var p' := if p <= Stop(q, r, 0) then p else p + 1;
            p' < |Insert(q, r)| && Insert(q, r)[p'] == q[p] && Distance(Insert(q, r), p') == Distance(q, p)
  {
    hide TwoSweeps, Distinct;
    InsertAt(q, r);
    InsertEnd(q, r);
  }

  /** Where the longer queue turns. */
  lemma InsertTurns(q: seq<nat>, r: nat, i: nat)
    requires q != [] && i <= |q|
    ensures var s := Stop(q, r, 0);
            Descent(Insert(q, r), i) == if i < s then Descent(q, i)
                                        else if i == s then q[s] >= r
                                        else if i == s + 1 then i < |q| && r >= q[i]
                                        else Descent(q, i - 1)
  {
  }

  /** The first sweep ends with the same request as before, unless it is also the last sweep. */
  lemma InsertEnd(q: seq<nat>, r: nat)
    requires q != [] && r !in q && TwoSweeps(q)
    ensures var s, e, q' := Stop(q, r, 0), SweepEnd(q, 0), Insert(q, r);
            SweepEnd(q', 0) == if s < e || (s == e && q[e] < r) then e + 1 else e
    ensures var s, e := Stop(q, r, 0), SweepEnd(q, 0); s == e && q[e] < r ==> e + 1 == |q|
  {
    var s, e, q' := Stop(q, r, 0), SweepEnd(q, 0), Insert(q, r);
    var e' := if s < e || (s == e && q[e] < r) then e + 1 else e;
    assert q[s] != r && |q'| == |q| + 1;
    assert s + 1 < |q| ==> r < q[s + 1] && (q[s] < r || Descent(q, s));
    assert e + 1 < |q| ==> q[e] >= q[e + 1];
    hide Descent, TwoSweeps, Insert, Stop, Fits;
    forall i | 0 <= i < e' ensures !Descent(q', i) {
      InsertTurns(q, r, i);
      assert i < e ==> !Descent(q, i);
      assert 1 <= i <= e ==> !Descent(q, i - 1);
    }
    InsertTurns(q, r, e');
    EndUnique(q', e', SweepEnd(q', 0));
  }

  lemma EndUnique(q: seq<nat>, d: nat, e: nat)
    requires IsEnd(q, d) && IsEnd(q, e)
    ensures d == e
  {
  }

  /** Each served request brings the head closer. */
  lemma PopDistance(q: seq<nat>, p: nat)
    requires Distinct(q) && TwoSweeps(q) && 1 <= p < |q|
    ensures Distance(q[1..], p - 1) < Distance(q, p)
  {
    var q', e := q[1..], SweepEnd(q, 0);
    if e > 0 {
      assert forall i | 0 <= i < |q'| :: Descent(q', i) <==> Descent(q, i + 1);
      assert !Descent(q, 0);
      assert IsEnd(q', e - 1);
      EndUnique(q', e - 1, SweepEnd(q', 0));
    } else {
      assert forall i | 0 <= i < |q'| - 1 :: !Descent(q', i) by {
        assert forall i | 0 <= i < |q'| :: Descent(q', i) ==> Descent(q, i + 1);
      }
      assert IsEnd(q', |q'| - 1);
      EndUnique(q', |q'| - 1, SweepEnd(q', 0));
    }
  }

  /** What happens to a queue: a request is added, or the one at the head is finished. */
  datatype Event = Add(r: nat) | Finish

  predicate Legal(q: seq<nat>, run: seq<Event>)
    decreases |run|
  {
    run == [] || match run[0]
                 case Add(r) => r !in q && Legal(Insert(q, r), run[1..])
                 case Finish => q != [] && Legal(q[1..], run[1..])
  }

  /** The request of rank `x` is finished somewhere in the run. */
  predicate Served(q: seq<nat>, x: nat, run: seq<Event>)
    requires Legal(q, run)
    decreases |run|
  {
    run != [] && match run[0]
                 case Add(r) => Served(Insert(q, r), x, run[1..])
                 case Finish => q[0] == x || Served(q[1..], x, run[1..])
  }

  function Finishes(run: seq<Event>): nat {
    if run == [] then 0 else Finishes(run[1..]) + if run[0].Finish? then 1 else 0
  }

  /** No queued request is overtaken forever: whatever is added, it is finished at the latest when
      as many requests are finished as the head has sectors to travel. */
  lemma {:induction false} NoStarvation(q: seq<nat>, p: nat, run: seq<Event>)
    requires Distinct(q) && TwoSweeps(q) && p < |q| && Legal(q, run)
    requires Finishes(run) > Distance(q, p)
    ensures Served(q, q[p], run)
    decreases |run|
  {
    if run == [] {
      Ascends(q, 0, SweepEnd(q, 0));
      if p <= SweepEnd(q, 0) { Ascends(q, 0, p); }
    } else if run[0].Add? {
      InsertKeeps(q, run[0].r);
      InsertDistinct(q, run[0].r);
      InsertDistance(q, run[0].r, p);
      NoStarvation(Insert(q, run[0].r), if p <= Stop(q, run[0].r, 0) then p else p + 1, run[1..]);
    } else if p > 0 {
      PopKeeps(q);
      PopDistance(q, p);
      NoStarvation(q[1..], p - 1, run[1..]);
    }
  }

  /** Every queue that requests with distinct keys can build up is at most two sweeps. */
  lemma {:induction false} AlwaysTwoSweeps(q: seq<nat>, run: seq<Event>)
    requires Distinct(q) && TwoSweeps(q) && Legal(q, run)
    ensures TwoSweeps(After(q, run)) && Distinct(After(q, run))
    decreases |run|
  {
    if run != [] {
      match run[0]
      case Add(r) =>
        InsertKeeps(q, r);
        InsertDistinct(q, r);
        AlwaysTwoSweeps(Insert(q, r), run[1..]);
      case Finish =>
        PopKeeps(q);
        AlwaysTwoSweeps(q[1..], run[1..]);
    }
  }

  function After(q: seq<nat>, run: seq<Event>): seq<nat>
    requires Legal(q, run)
    decreases |run|
  {
    if run == [] then q
    else match run[0]
      case Add(r) => After(Insert(q, r), run[1..])
      case Finish => After(q[1..], run[1..])
  }
}
