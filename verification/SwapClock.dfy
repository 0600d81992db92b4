/** The clock of swap_out (mm/swap.c:153-191): which entries it looks at before it gives up, from
    the page directory and the place where it stopped last time. */
module SwapClock {
  import opened Paging
  import opened PagingSteps
  import opened Calmness

  /** Page directory entries 16..1023 belong to tasks 1..63. */
  const FIRST_TABLE := 16
  const TABLES := 1008
  const VM_PAGES := 1024 * TABLES

  /** dir_entry and page_entry as swap_out leaves them. */
  datatype Hand = Hand(dir: nat, page: int)

  predicate HandOk(h: Hand) {
    FIRST_TABLE <= h.dir <= 1024 && -1 <= h.page < 1024
  }

  function Number(l: Loc): nat {
    l.t * TASK_DIRS + l.d
  }

  function Here(n: nat, e: nat): Loc {
    Loc(n / TASK_DIRS, n % TASK_DIRS, e)
  }

  function TableAt(n: nat): Dir {
    Dir(n / TASK_DIRS, n % TASK_DIRS)
  }

  function Used(dirs: set<Dir>): set<nat> {
    set n: nat | FIRST_TABLE <= n < 1024 && TableAt(n) in dirs
  }

  /** How many directory entries the clock turns from `a` to `n`; a whole turn back to `a` itself. */
  function Steps(a: nat, n: nat): int {
    if n > a then n - a else n - (if a == 1024 then 1023 else a) + TABLES
  }

  /** The tables it has come to within `k` steps. */
  function Within(dirs: set<Dir>, a: nat, k: int): set<nat> {
    set n | n in Used(dirs) && Steps(a, n) <= k
  }

  /** What it costs to go through `c` tables, the first one from the entry after `page` on. */
  function PassCost(c: nat, page: int): int {
    if c == 0 then 0 else 1024 - page + 1025 * (c - 1)
  }

  /** The tables gone through before the one of `l`. */
  function Earlier(dirs: set<Dir>, h: Hand, l: Loc): set<nat> {
    Within(dirs, h.dir, Steps(h.dir, Number(l)) - 1)
  }

  /** What is used up of the counter when the clock comes to `l`: 1024 for each directory entry, one for each page. */
  function Cost(dirs: set<Dir>, h: Hand, l: Loc): int {
    var c := |Earlier(dirs, h, l)|;
    1024 * Steps(h.dir, Number(l)) + PassCost(c, h.page) + (if c == 0 then l.e - h.page - 1 else l.e)
  }

  predicate InRange(l: Loc) {
    l.d < TASK_DIRS && FIRST_TABLE <= Number(l) < 1024 && l.e < 1024
  }

  /** The clock looks at `l`. */
  predicate Tried(dirs: set<Dir>, h: Hand, l: Loc) {
    && InRange(l) && Dir(l.t, l.d) in dirs
    && (Earlier(dirs, h, l) == {} ==> l.e > h.page)
    && Cost(dirs, h, l) < VM_PAGES
  }

  /** It finds nothing to take. */
  ghost predicate Stuck(s: Mm, h: Hand) {
    forall l | Evictable(s, l) :: !Tried(s.dir.Keys, h, l)
  }

  /** The first page that can leave has left, and the clock stands there. */
  ghost predicate Took(s: Mm, h: Hand, pte': map<Loc, Pte>, c: Hand) {
    && c.dir < 1024 && c.page >= 0
    && var l := Here(c.dir, c.page);
       && WentOut(s.pte, pte', l) && Evictable(s, l) && Tried(s.dir.Keys, h, l)
       && forall m | Evictable(s, m) && Tried(s.dir.Keys, h, m) :: Cost(s.dir.Keys, h, l) <= Cost(s.dir.Keys, h, m)
  }

  lemma TookFacts(s: Mm, h: Hand, pte': map<Loc, Pte>, c: Hand)
    requires HandOk(h) && Took(s, h, pte', c)
    ensures !Stuck(s, h) && c.page >= 0 && c.dir != h.dir
            && c == Hand(Number(Here(c.dir, c.page)), Here(c.dir, c.page).e)
    ensures WentOut(s.pte, pte', Here(c.dir, c.page))
  {
    HereNumber(c.dir, c.page);
    OwnTableMissed(s.dir.Keys, h, Here(c.dir, c.page));
  }

  // ---------------------------------------------------------------- steps

  predicate TableNumber(n: nat) {
    FIRST_TABLE <= n < 1024
  }

  lemma StepsRange(a: nat, n: nat)
    requires FIRST_TABLE <= a <= 1024 && TableNumber(n)
    ensures 1 <= Steps(a, n) <= TABLES && (Steps(a, n) == TABLES <==> n == a || (a == 1024 && n == 1023))
  {
  }

  lemma StepsInjective(a: nat, n: nat, m: nat)
    requires FIRST_TABLE <= a <= 1024 && TableNumber(n) && TableNumber(m) && Steps(a, n) == Steps(a, m)
    ensures n == m
  {
  }

  lemma StepsSum(a: nat, n: nat, m: nat)
    requires FIRST_TABLE <= a <= 1024 && TableNumber(n) && TableNumber(m) && Steps(a, n) + Steps(n, m) <= TABLES
    ensures Steps(a, m) == Steps(a, n) + Steps(n, m)
  {
  }

  /** Where the clock goes on from `n`. */
  lemma StepsAdd(a: nat, n: nat, m: nat)
    requires FIRST_TABLE <= a <= 1024 && TableNumber(n) && TableNumber(m) && Steps(a, n) < Steps(a, m)
    ensures Steps(n, m) == Steps(a, m) - Steps(a, n)
  {
  }

  lemma HereNumber(n: nat, e: nat)
    ensures Number(Here(n, e)) == n
  {
  }

  lemma NumberTable(l: Loc)
    requires InRange(l)
    ensures TableAt(Number(l)) == Dir(l.t, l.d)
  {
  }

  lemma PassMore(b: nat, c: nat, page: int)
    requires b <= c && page < 1024
    ensures PassCost(b, page) <= PassCost(c, page)
    ensures PassCost(b + 1, page) == PassCost(b, page) + (if b == 0 then 1024 - page else 1025)
  {
  }

  /** Going through more tables first costs at least as much. */
  lemma CostAtLeast(dirs: set<Dir>, h: Hand, l: Loc, k: int)
    requires HandOk(h) && InRange(l) && k < Steps(h.dir, Number(l))
    requires Earlier(dirs, h, l) == {} ==> l.e > h.page
    ensures Cost(dirs, h, l) >= 1024 * Steps(h.dir, Number(l)) + PassCost(|Within(dirs, h.dir, k)|, h.page)
  {
    CardinalityMonotone(Within(dirs, h.dir, k), Earlier(dirs, h, l));
    PassMore(|Within(dirs, h.dir, k)|, |Earlier(dirs, h, l)|, h.page);
  }

  /** The clock never comes to the table it stands on again. */
  lemma OwnTableMissed(dirs: set<Dir>, h: Hand, l: Loc)
    requires HandOk(h) && Tried(dirs, h, l)
    ensures Number(l) != h.dir
  {
    if Number(l) == h.dir { CostAtLeast(dirs, h, l, 0); }
  }

  // ---------------------------------------------------------------- how far a search has come

  /** Every table within `k` steps has been gone through and none of its pages can leave; `left` remains. */
  ghost predicate Searched(s: Mm, h: Hand, k: nat, left: int) {
    && left == VM_PAGES - 1024 * k - PassCost(|Within(s.dir.Keys, h.dir, k)|, h.page)
    && forall l | Tried(s.dir.Keys, h, l) && Steps(h.dir, Number(l)) <= k :: !Evictable(s, l)
  }

  lemma SearchStart(s: Mm, h: Hand)
    requires HandOk(h)
    ensures Searched(s, h, 0, VM_PAGES)
  {
    assert Within(s.dir.Keys, h.dir, 0) == {};
  }

  /** The clock stands at table `n`, the next one in use. */
  ghost predicate AtTable(s: Mm, h: Hand, k: nat, n: nat) {
    && n in Used(s.dir.Keys) && k < Steps(h.dir, n)
    && forall m | m in Used(s.dir.Keys) && k < Steps(h.dir, m) :: Steps(h.dir, n) <= Steps(h.dir, m)
  }

  lemma TableReached(s: Mm, h: Hand, k: nat, n: nat)
    requires HandOk(h) && AtTable(s, h, k, n)
    ensures Within(s.dir.Keys, h.dir, Steps(h.dir, n) - 1) == Within(s.dir.Keys, h.dir, k)
    ensures Within(s.dir.Keys, h.dir, Steps(h.dir, n)) == Within(s.dir.Keys, h.dir, k) + {n}
    ensures n !in Within(s.dir.Keys, h.dir, k)
  {
    forall m | m in Used(s.dir.Keys) && Steps(h.dir, m) == Steps(h.dir, n) ensures m == n
    {
      StepsInjective(h.dir, n, m);
    }
  }

  /** Where the clock starts in the next table. */
  function Start(s: Mm, h: Hand, k: nat): int {
    if Within(s.dir.Keys, h.dir, k) == {} then h.page + 1 else 0
  }

  /** An entry of that table is tried as long as the counter lasts. */
  lemma TriedHere(s: Mm, h: Hand, k: nat, left: int, n: nat, e: nat)
    requires HandOk(h) && Searched(s, h, k, left) && AtTable(s, h, k, n) && e < 1024
    ensures var l := Here(n, e); var start := Start(s, h, k);
            && InRange(l) && Number(l) == n
            && (Tried(s.dir.Keys, h, l) <==> start <= e && e - start < left - 1024 * (Steps(h.dir, n) - k))
            && Cost(s.dir.Keys, h, l) == VM_PAGES - (left - 1024 * (Steps(h.dir, n) - k)) + (e - start)
  {
    TableReached(s, h, k, n);
  }

  /** No page of this table can leave, and the counter lasts for all of it. */
  lemma SearchedTable(s: Mm, h: Hand, k: nat, left: int, n: nat)
    requires HandOk(h) && Searched(s, h, k, left) && AtTable(s, h, k, n)
    requires forall e | 0 <= e < 1024 && Tried(s.dir.Keys, h, Here(n, e)) ::
               !Evictable(s, Here(n, e))
    ensures Searched(s, h, Steps(h.dir, n), left - 1024 * (Steps(h.dir, n) - k) - (1025 - Start(s, h, k)))
  {
    TableReached(s, h, k, n);
    PassMore(|Within(s.dir.Keys, h.dir, k)|, |Within(s.dir.Keys, h.dir, k)|, h.page);
    forall l | Tried(s.dir.Keys, h, l) && k < Steps(h.dir, Number(l)) <= Steps(h.dir, n) ensures !Evictable(s, l) {
      NumberTable(l);
      assert Number(l) in Used(s.dir.Keys);
      StepsInjective(h.dir, n, Number(l));
      assert l == Here(n, l.e);
    }
  }

  /** The counter does not last to the next table. */
  lemma SearchOver(s: Mm, h: Hand, k: nat, left: int)
    requires HandOk(h) && Searched(s, h, k, left)
    requires forall n | n in Used(s.dir.Keys) && k < Steps(h.dir, n) :: left <= 1024 * (Steps(h.dir, n) - k)
    ensures Stuck(s, h)
  {
    forall l | Evictable(s, l) ensures !Tried(s.dir.Keys, h, l) {
      if Tried(s.dir.Keys, h, l) && k < Steps(h.dir, Number(l)) {
        NumberTable(l);
        assert Number(l) in Used(s.dir.Keys);
        CostAtLeast(s.dir.Keys, h, l, k);
      }
    }
  }

  /** None of the `c` entries of table `n` after `page` can leave. */
  ghost predicate NoneAfter(s: Mm, n: nat, page: int, c: int) {
    forall e | page < e < 1024 && e >= 0 && e - page <= c :: !Evictable(s, Here(n, e))
  }

  /** The first page that can leave after `page` was the one at `page'`, and it has left. */
  ghost predicate Leaves(s: Mm, pte': map<Loc, Pte>, n: nat, page: int, page': int, counter: int) {
    && page < page' && 0 <= page' && page' - page <= counter && NoneAfter(s, n, page, page' - 1 - page)
    && Evictable(s, Here(n, page')) && WentOut(s.pte, pte', Here(n, page'))
  }

  /** The table or the counter has ended. */
  predicate Ended(page: int, page': int, counter: int, left: int, again: bool) {
    if again then page' == -1 && 0 <= left == counter - (1024 - page)
    else left == 0 && counter <= 1024 - page
  }

  /** What one pass through a table comes to. */
  ghost predicate Scanned(s: Mm, h: Hand, s': Mm, h': Hand, counter: int, ok: bool, left: int, again: bool) {
    && h'.dir == h.dir
    && if ok then h'.page >= 0 && Leaves(s, s'.pte, h.dir, h.page, h'.page, counter)
       else s' == s && NoneAfter(s, h.dir, h.page, counter) && Ended(h.page, h'.page, counter, left, again)
  }

  /** `c` entries of table `n` after `page` have been looked at in vain. */
  ghost predicate Scanning(s: Mm, n: nat, page: int, page': int, c: int, again: bool) {
    && NoneAfter(s, n, page, c) && c >= 0 && page >= -1
    && if again then page' == -1 && c == 1024 - page else page' == page + c
  }

  lemma ScanStart(s: Mm, n: nat, page: int)
    requires page >= -1
    ensures Scanning(s, n, page, page, 0, false)
  {
  }

  lemma ScanSane(s: Mm, n: nat, page: int, page': int, c: int)
    requires Scanning(s, n, page, page', c, false)
    ensures page' >= -1
  {
  }

  lemma ScanNext(s: Mm, n: nat, page: int, page': int, c: int)
    requires Scanning(s, n, page, page', c, false) && page' < 1024
    ensures page' + 1 >= 1024 ==> Scanning(s, n, page, -1, c + 1, true)
    ensures 0 <= page' + 1 < 1024 && !Evictable(s, Here(n, page' + 1)) ==> Scanning(s, n, page, page' + 1, c + 1, false)
  {
    hide Evictable;
  }

  lemma ScanFound(s: Mm, pte': map<Loc, Pte>, n: nat, page: int, page': int, c: int, counter: int)
    requires Scanning(s, n, page, page' - 1, c, false) && c < counter && page' >= 0
    requires Evictable(s, Here(n, page')) && WentOut(s.pte, pte', Here(n, page'))
    ensures Leaves(s, pte', n, page, page', counter)
  {
    hide Evictable, WentOut;
  }

  /** The table or the counter has ended. */
  lemma ScanOver(s: Mm, n: nat, page: int, page': int, c: int, again: bool, counter: int)
    requires Scanning(s, n, page, page', c, again) && c <= counter && page' < 1024 && (again || c == counter)
    ensures NoneAfter(s, n, page, counter) && Ended(page, page', counter, counter - c, again)
  {
    hide Evictable;
  }

  /** Where the clock stands after `k` steps. */
  ghost predicate Turned(s: Mm, h: Hand, k: nat, c: Hand) {
    && HandOk(c) && c.page + 1 == Start(s, h, k)
    && if k == 0 then c.dir == h.dir else c.dir < 1024 && Steps(h.dir, c.dir) == k
  }

  lemma TurnedStart(s: Mm, h: Hand)
    requires HandOk(h)
    ensures Turned(s, h, 0, h)
  {
    assert Within(s.dir.Keys, h.dir, 0) == {};
  }

  lemma TurnedFacts(s: Mm, h: Hand, k: nat, c: Hand, n: nat)
    requires Turned(s, h, k, c) && AtTable(s, h, k, n)
    ensures c.page + 1 == Start(s, h, k) && FIRST_TABLE <= n < 1024
  {
  }

  lemma TurnedOver(s: Mm, h: Hand, k: nat, left: int, c: Hand)
    requires HandOk(h) && Searched(s, h, k, left) && Turned(s, h, k, c)
    requires forall n | n in Used(s.dir.Keys) :: left <= 1024 * Steps(c.dir, n)
    ensures Stuck(s, h)
  {
    forall n | n in Used(s.dir.Keys) && k < Steps(h.dir, n) ensures left <= 1024 * (Steps(h.dir, n) - k) {
      if k > 0 { StepsAdd(h.dir, c.dir, n); }
    }
    SearchOver(s, h, k, left);
  }

  lemma TurnedOn(s: Mm, h: Hand, k: nat, left: int, c: Hand, n: nat)
    requires HandOk(h) && Searched(s, h, k, left) && Turned(s, h, k, c) && n in Used(s.dir.Keys)
    requires forall m | m in Used(s.dir.Keys) :: Steps(c.dir, n) <= Steps(c.dir, m)
    requires left > 1024 * Steps(c.dir, n)
    ensures AtTable(s, h, k, n) && Steps(h.dir, n) == k + Steps(c.dir, n) && Steps(c.dir, n) >= 1
  {
    StepsRange(c.dir, n);
    if k > 0 {
      StepsSum(h.dir, c.dir, n);
      forall m | m in Used(s.dir.Keys) && k < Steps(h.dir, m) ensures Steps(h.dir, n) <= Steps(h.dir, m) {
        StepsAdd(h.dir, c.dir, m);
      }
    }
  }

  /** The page at entry `e` of table `n` is the first that can leave. */
  lemma FoundPage(s: Mm, h: Hand, k: nat, left: int, n: nat, e: nat, pte': map<Loc, Pte>)
    requires HandOk(h) && Searched(s, h, k, left) && AtTable(s, h, k, n) && e < 1024
    requires Leaves(s, pte', n, Start(s, h, k) - 1, e, left - 1024 * (Steps(h.dir, n) - k))
    ensures Took(s, h, pte', Hand(n, e))
  {
    assert n in Used(s.dir.Keys);
    hide Evictable, Searched, AtTable, Cost, Start, Tried;
    TriedHere(s, h, k, left, n, e);
    forall i | 0 <= i < e && Tried(s.dir.Keys, h, Here(n, i)) ensures !Evictable(s, Here(n, i)) {
      TriedHere(s, h, k, left, n, i);
    }
    CheapestHere(s, h, k, left, n, e);
  }

  /** No page of table `n` can leave as long as the counter lasts. */
  lemma ScannedTable(s: Mm, h: Hand, k: nat, left: int, n: nat)
    requires HandOk(h) && Searched(s, h, k, left) && AtTable(s, h, k, n)
    requires NoneAfter(s, n, Start(s, h, k) - 1, left - 1024 * (Steps(h.dir, n) - k))
    ensures var left' := left - 1024 * (Steps(h.dir, n) - k) - (1025 - Start(s, h, k));
            Searched(s, h, Steps(h.dir, n), left') && (left' <= 0 ==> Stuck(s, h))
    ensures FIRST_TABLE <= n < 1024 && Turned(s, h, Steps(h.dir, n), Hand(n, -1))
  {
    forall e | 0 <= e < 1024 && Tried(s.dir.Keys, h, Here(n, e)) ensures !Evictable(s, Here(n, e)) {
      hide Evictable, Searched, AtTable, Cost, Start, Tried;
      TriedHere(s, h, k, left, n, e);
    }
    SearchedTable(s, h, k, left, n);
    TableReached(s, h, k, n);
    hide Evictable, Searched, Tried;
    var left' := left - 1024 * (Steps(h.dir, n) - k) - (1025 - Start(s, h, k));
    if left' <= 0 { SearchOver(s, h, Steps(h.dir, n), left'); }
  }

  /** Within its own table nothing comes before a page but the pages before it. */
  lemma CheapestHere(s: Mm, h: Hand, k: nat, left: int, n: nat, e: nat)
    requires HandOk(h) && Searched(s, h, k, left) && AtTable(s, h, k, n) && e < 1024
    requires Tried(s.dir.Keys, h, Here(n, e))
    requires forall i | 0 <= i < e && Tried(s.dir.Keys, h, Here(n, i)) ::
               !Evictable(s, Here(n, i))
    ensures forall m | Evictable(s, m) && Tried(s.dir.Keys, h, m) ::
              Cost(s.dir.Keys, h, Here(n, e)) <= Cost(s.dir.Keys, h, m)
  {
    forall m | Evictable(s, m) && Tried(s.dir.Keys, h, m)
      ensures Cost(s.dir.Keys, h, Here(n, e)) <= Cost(s.dir.Keys, h, m)
    {
      NumberTable(m);
      assert Number(m) in Used(s.dir.Keys);
      TriedHere(s, h, k, left, n, e);
      if Number(m) == n {
        assert m == Here(n, m.e);
        TriedHere(s, h, k, left, n, m.e);
      } else {
        StepsRange(h.dir, n);
        if Steps(h.dir, n) == Steps(h.dir, Number(m)) { StepsInjective(h.dir, n, Number(m)); }
        TableReached(s, h, k, n);
        CostAtLeast(s.dir.Keys, h, m, Steps(h.dir, n));
        PassMore(|Within(s.dir.Keys, h.dir, k)|, |Within(s.dir.Keys, h.dir, k)|, h.page);
      }
    }
  }

  // ---------------------------------------------------------------- several pages in a row

  /** Pages have left memory; the clock stands where it stood, or at the last one that left, and a single page that
      left was not in the table it stood on. */
  ghost predicate Wandered(p: set<Loc>, p': set<Loc>, h: Hand, h': Hand) {
    && p' <= p
    && (if p' == p then h' == h else exists l :: l in p - p' && h' == Hand(Number(l), l.e))
    && forall l | p - p' == {l} :: Number(l) != h.dir
  }

  lemma WanderedNot(p: set<Loc>, h: Hand)
    ensures Wandered(p, p, h, h)
  {
    assert p - p == {};
  }

  lemma WanderedOn(p: set<Loc>, p1: set<Loc>, p2: set<Loc>, h: Hand, h1: Hand, l: Loc)
    requires Wandered(p, p1, h, h1) && p1 == p2 + {l} && l !in p2 && Number(l) != h1.dir
    ensures Wandered(p, p2, h, Hand(Number(l), l.e)) && p2 != p
  {
    assert l in p - p2;
    forall m | p - p2 == {m} ensures Number(m) != h.dir {
      assert l in {m};
      assert p - p1 == {};
      assert p1 == p;
    }
  }

  /** A page that is taken away from its user between two faults takes another one with it, or the clock comes to its
      table from elsewhere. */
  lemma Slipped(p0: set<Loc>, p1: set<Loc>, p2: set<Loc>, h0: Hand, h1: Hand, h2: Hand, l: Loc)
    requires Wandered(p0 - {l}, p1 - {l}, h0, h1) && Wandered(p1, p2, h1, h2) && l in p1 && l !in p2
    ensures |p2 - {l}| < |p0 - {l}|
         || (|p2 - {l}| == |p0 - {l}| && h0.dir != Number(l) && h2.dir == Number(l))
  {
    assert p2 - {l} == p2;
    CardinalityMonotone(p2, p1 - {l});
    CardinalityMonotone(p1 - {l}, p0 - {l});
    if p2 == p1 - {l} {
      assert p1 - p2 == {l};
      if p1 - {l} != p0 - {l} { Smaller(p1 - {l}, p0 - {l}); }
    } else {
      Smaller(p2, p1 - {l});
    }
  }

  lemma Smaller<T>(a: set<T>, b: set<T>)
    requires a <= b && a != b
    ensures |a| < |b|
  {
    assert b == a + (b - a);
  }
}
