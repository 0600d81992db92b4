/** What the buffer cache keeps true (fs/buffer.c), and the changes that keep it. */
module BufferState {
  import opened BufferLists
  import opened Kernel
  import opened Sequences

  const NR_HASH := 307

  /** _hashfn: the exclusive or of two 32-bit words. */
  function Hash(dev: nat, blocknr: nat): (k: nat)
    ensures k < NR_HASH
  {
    (((dev % 0x1_0000_0000) as bv32 ^ (blocknr % 0x1_0000_0000) as bv32) as nat) % NR_HASH
  }

  // ---------------------------------------------------------------- hash table

  /** Each chain holds exactly the buffers that hash to it; `skip` (-1 for none) is in none. */
  ghost predicate Hashed(h: seq<Head>, table: seq<int>, chain: seq<seq<nat>>, skip: int) {
    && |table| == |chain| == NR_HASH
    && (forall k | 0 <= k < NR_HASH :: Chain(h, table[k], chain[k]))
    && (forall k, x | 0 <= k < NR_HASH && x in chain[k] :: Belongs(h, x, k) && x != skip)
    && (forall x | 0 <= x < |h| && x != skip && h[x].dev != 0 :: x in chain[Hash(h[x].dev, h[x].blocknr)])
    && (forall x | 0 <= x < |h| && h[x].dev == 0 :: h[x].next == h[x].prev == -1)
  }

  predicate Belongs(h: seq<Head>, x: nat, k: nat) {
    x < |h| && h[x].dev != 0 && Hash(h[x].dev, h[x].blocknr) == k
  }

  /** No block is cached twice. */
  predicate Unique(h: seq<Head>) {
    forall x, y | 0 <= x < |h| && 0 <= y < |h| && h[x].dev != 0 && h[x].dev == h[y].dev
         && h[x].blocknr == h[y].blocknr ::
      x == y
  }

  ghost predicate Ringed(h: seq<Head>, free: int, ring: seq<nat>) {
    Ring(h, free, ring) && |ring| == |h| >= 2 && forall x: nat | x < |h| :: x in ring
  }

  /** remove_from_hash_queue */
  function UnlinkTable(h: seq<Head>, table: seq<int>, b: nat): seq<int>
    requires b < |h| && |table| == NR_HASH
  {
    var k := Hash(h[b].dev, h[b].blocknr);
    if table[k] == b then table[k := h[b].next] else table
  }

  function IndexOf(list: seq<nat>, x: nat): (i: nat)
    requires x in list
    ensures i < |list| && list[i] == x
  {
    if list[0] == x then 0 else 1 + IndexOf(list[1..], x)
  }

  function UnlinkChains(h: seq<Head>, chain: seq<seq<nat>>, b: nat): seq<seq<nat>>
    requires b < |h| && |chain| == NR_HASH
  {
    var k := Hash(h[b].dev, h[b].blocknr);
    if b in chain[k] then chain[k := Without(chain[k], IndexOf(chain[k], b))] else chain
  }

  /** The links of a buffer stay inside its own chain. */
  lemma LinksInside(h: seq<Head>, table: seq<int>, chain: seq<seq<nat>>, b: nat)
    requires Hashed(h, table, chain, -1) && b < |h|
    ensures h[b].next < |h| && h[b].prev < |h|
    ensures var k := Hash(h[b].dev, h[b].blocknr);
            && (h[b].next >= 0 ==> h[b].next in chain[k])
            && (h[b].prev >= 0 ==> h[b].prev in chain[k])
    ensures h[b].dev != 0 <==> b in chain[Hash(h[b].dev, h[b].blocknr)]
  {
  }

  /** A chain that the buffer is not in is not touched. */
  lemma UnlinkOthers(h: seq<Head>, table: seq<int>, chain: seq<seq<nat>>, b: nat, n: nat)
    requires Hashed(h, table, chain, -1) && b < |h| && n < NR_HASH && b !in chain[n]
    ensures h[b].next < |h| && h[b].prev < |h| && Chain(Unlink(h, b), table[n], chain[n])
  {
    LinksInside(h, table, chain, b);
    UnlinkFrame(h, b);
    var k := Hash(h[b].dev, h[b].blocknr);
    hide Hash, Chain, Unlink;
    forall x | x in chain[n] && x < |h|
      ensures Unlink(h, b)[x].next == h[x].next && Unlink(h, b)[x].prev == h[x].prev
    {
      assert Belongs(h, x, n);
      assert h[b].next >= 0 ==> Belongs(h, h[b].next, k);
      assert h[b].prev >= 0 ==> Belongs(h, h[b].prev, k);
    }
    OtherChain(h, Unlink(h, b), table[n], chain[n]);
  }

  lemma HashedUnlink(h: seq<Head>, table: seq<int>, chain: seq<seq<nat>>, b: nat)
    requires Hashed(h, table, chain, -1) && b < |h|
    ensures h[b].next < |h| && h[b].prev < |h|
    ensures Hashed(Unlink(h, b), UnlinkTable(h, table, b), UnlinkChains(h, chain, b), b)
  {
    hide Hash, Chain;
    LinksInside(h, table, chain, b);
    UnlinkFrame(h, b);
    var k := Hash(h[b].dev, h[b].blocknr);
    var h', table', chain' := Unlink(h, b), UnlinkTable(h, table, b), UnlinkChains(h, chain, b);
    ChainFacts(h, table[k], chain[k]);
    if h[b].dev != 0 {
      var i := IndexOf(chain[k], b);
      UnlinkChain(h, table[k], chain[k], i);
      WithoutDistinct(chain[k], i);
    }
    forall n | 0 <= n < NR_HASH ensures Chain(h', table'[n], chain'[n]) {
      if b !in chain[n] { UnlinkOthers(h, table, chain, b, n); }
    }
    forall n, x | 0 <= n < NR_HASH && x in chain'[n] ensures Belongs(h', x, n) && x != b {
      assert x in chain[n] && Belongs(h, x, n);
    }
  }

  lemma HashedSizes(h: seq<Head>, table: seq<int>, chain: seq<seq<nat>>, skip: int)
    requires Hashed(h, table, chain, skip)
    ensures |table| == |chain| == NR_HASH && forall k | 0 <= k < NR_HASH :: table[k] < |h|
  {
  }

  lemma ChainFacts(h: seq<Head>, head: int, list: seq<nat>)
    requires Chain(h, head, list)
    ensures Distinct(list) && head == At(list, 0) && InRange(h, list)
  {
  }

  /** A buffer outside all chains gets its block and enters the chain of it. */
  lemma HashedLink(h: seq<Head>, table: seq<int>, chain: seq<seq<nat>>, b: nat)
    requires Hashed(h, table, chain, b) && b < |h| && h[b].dev != 0
    ensures var k := Hash(h[b].dev, h[b].blocknr);
            table[k] < |h| && Hashed(Link(h, b, table[k]), table[k := b], chain[k := [b] + chain[k]], -1)
  {
    hide Hash, Chain;
    var k := Hash(h[b].dev, h[b].blocknr);
    ChainFacts(h, table[k], chain[k]);
    LinkChain(h, table[k], chain[k], b);
    var h', table', chain' := Link(h, b, table[k]), table[k := b], chain[k := [b] + chain[k]];
    assert forall x | 0 <= x < |h| :: h'[x] == h[x].(next := h'[x].next, prev := h'[x].prev);
    assert forall x | 0 <= x < |h| && x != b && x != table[k] :: h'[x] == h[x];
    forall n | 0 <= n < NR_HASH && n != k ensures Chain(h', table[n], chain[n]) {
      forall x | x in chain[n] && x < |h| ensures h'[x].next == h[x].next && h'[x].prev == h[x].prev {
        assert Belongs(h, x, n) && (table[k] >= 0 ==> table[k] in chain[k] && Belongs(h, table[k], k));
      }
      OtherChain(h, h', table[n], chain[n]);
    }
    forall n, x | 0 <= n < NR_HASH && x in chain'[n] ensures Belongs(h', x, n) {
      assert x == b || (x in chain[n] && Belongs(h, x, n));
    }
    assert table[k] >= 0 ==> Belongs(h, table[k], k) by { assert table[k] >= 0 ==> table[k] in chain[k]; }
  }

  /** Changing what is no link and no name of a buffer changes no chain. */
  lemma HashedSame(h: seq<Head>, h': seq<Head>, table: seq<int>, chain: seq<seq<nat>>, skip: int)
    requires Hashed(h, table, chain, skip) && |h'| == |h|
    requires forall x | 0 <= x < |h| ::
               h'[x].next == h[x].next && h'[x].prev == h[x].prev
               && (x != skip ==> h'[x].dev == h[x].dev && h'[x].blocknr == h[x].blocknr)
    requires 0 <= skip < |h| && h'[skip].dev == 0 ==> h[skip].next == h[skip].prev == -1
    ensures Hashed(h', table, chain, skip)
  {
  }

  // ---------------------------------------------------------------- ring

  /** The ring with one buffer taken out. */
  ghost predicate Opened(h: seq<Head>, free: int, ring: seq<nat>, b: nat) {
    Ring(h, free, ring) && b < |h| && |ring| + 1 == |h| >= 2 && b !in ring && forall x: nat | x < |h| && x != b ::
        x in ring
  }

  lemma RingedLeave(h: seq<Head>, free: int, ring: seq<nat>, b: nat)
    requires Ringed(h, free, ring) && b < |h|
    ensures 0 <= h[b].nextFree < |h| && 0 <= h[b].prevFree < |h| && SameBut(h, Leave(h, b))
    ensures Opened(Leave(h, b), if free == b then h[b].nextFree else free, Without(ring, IndexOf(ring, b)), b)
  {
    hide Ring, SameBut;
    var i := IndexOf(ring, b);
    RingFacts(h, free, ring);
    assert 0 in ring && 1 in ring;
    LeaveRing(h, free, ring, i);
    WithoutDistinct(ring, i);
    LeaveSame(h, b);
  }

  lemma RingedJoin(h: seq<Head>, free: int, ring: seq<nat>, b: nat)
    requires Opened(h, free, ring, b)
    ensures 0 <= free < |h| && 0 <= h[free].prevFree < |h| && SameBut(h, Join(h, b, free))
    ensures Ringed(Join(h, b, free), free, ring + [b])
  {
    hide Ring, SameBut;
    RingFacts(h, free, ring);
    JoinRing(h, free, ring, b);
    JoinSame(h, b, free);
  }

  lemma LeaveSame(h: seq<Head>, b: nat)
    requires b < |h| && 0 <= h[b].nextFree < |h| && 0 <= h[b].prevFree < |h|
    ensures |Leave(h, b)| == |h| && SameBut(h, Leave(h, b))
  {
  }

  lemma JoinSame(h: seq<Head>, b: nat, free: nat)
    requires b < |h| && free < |h| && 0 <= h[free].prevFree < |h|
    ensures |Join(h, b, free)| == |h| && SameBut(h, Join(h, b, free))
  {
  }

  lemma RingFacts(h: seq<Head>, free: int, list: seq<nat>)
    requires Ring(h, free, list)
    ensures Distinct(list) && list != [] && free == list[0] && InRange(h, list)
  {
  }

  /** Everything but the links of the ring is as before. */
  predicate SameBut(h: seq<Head>, h': seq<Head>) {
    |h'| == |h| && forall x | 0 <= x < |h| :: h'[x] == h[x].(nextFree := h'[x].nextFree, prevFree := h'[x].prevFree)
  }

  lemma RingedSame(h: seq<Head>, h': seq<Head>, free: int, ring: seq<nat>)
    requires Ringed(h, free, ring) && |h'| == |h|
    requires forall x | 0 <= x < |h| :: h'[x].nextFree == h[x].nextFree && h'[x].prevFree == h[x].prevFree
    ensures Ringed(h', free, ring)
  {
  }

  // ---------------------------------------------------------------- the whole cache

  datatype Name = Name(dev: nat, blocknr: nat)
  datatype Io = Idle | Reading | Writing
  type Block = seq<Byte>

  /** `latest` is what was last stored for each block, `mine` and `others` who holds each buffer: the
      running process and all others; `own` are blocks only the running process stores to, `foreign` blocks
      it never stores to.  `seen` and `known` are the heads and `latest` when it last got the processor. */
  datatype State = State(h: seq<Head>, table: seq<int>, free: int, chain: seq<seq<nat>>, ring: seq<nat>,
                         data: seq<Block>, io: seq<Io>, disk: map<Name, Block>, latest: map<Name, Block>,
                         mine: seq<nat>, others: seq<nat>, own: set<Name>, foreign: set<Name>,
                         seen: seq<Head>, known: map<Name, Block>)

  function Content(m: map<Name, Block>, n: Name): Block {
    if n in m then m[n] else []
  }

  function NameOf(hd: Head): Name {
    Name(hd.dev, hd.blocknr)
  }

  ghost predicate Structured(s: State) {
    Hashed(s.h, s.table, s.chain, -1) && Ringed(s.h, s.free, s.ring) && Unique(s.h)
  }

  predicate Usable(hd: Head, io: Io) {
    && (hd.dirt ==> hd.uptodate)
    && (io.Reading? ==> !hd.uptodate)
    && (io.Writing? ==> hd.uptodate)
    && (hd.lock <==> !io.Idle?)
    && (hd.dev == 0 ==> !hd.uptodate && io.Idle? && hd.count == 0)
  }

  /** The buffer still has to reach the disk. */
  predicate Owes(hd: Head, io: Io, n: Name) {
    NameOf(hd) == n && (hd.dirt || io.Writing?)
  }

  /** An up-to-date buffer holds the last bytes stored; so does the disk unless some buffer owes them. */
  ghost predicate Coherent(s: State) {
    && |s.h| == |s.data| == |s.io|
    && (forall x | 0 <= x < |s.h| :: Usable(s.h[x], s.io[x]))
    && (forall x | 0 <= x < |s.h| && s.h[x].uptodate :: s.data[x] == Content(s.latest, NameOf(s.h[x])))
    && (forall n :: Content(s.disk, n) == Content(s.latest, n)
                    || exists x :: 0 <= x < |s.h| && Owes(s.h[x], s.io[x], n))
  }

  predicate Counted(s: State) {
    && |s.mine| == |s.others| == |s.h|
    && forall x | 0 <= x < |s.h| :: s.h[x].count == s.mine[x] + s.others[x]
  }

  /** A held buffer keeps its block and does not go out of date. */
  predicate Held(h: seq<Head>, held: seq<nat>, h': seq<Head>) {
    |h'| == |h| == |held| && forall x | 0 <= x < |h| && held[x] > 0 :: StaysUsable(h[x], h'[x])
  }

  predicate StaysUsable(hd: Head, hd': Head) {
    NameOf(hd') == NameOf(hd) && (hd.uptodate ==> hd'.uptodate)
  }

  predicate Untouched(names: set<Name>, latest: map<Name, Block>, latest': map<Name, Block>) {
    forall n | n in names :: Content(latest', n) == Content(latest, n)
  }

  /** What the running process owes to the others since they last ran ... */
  predicate Promise(s: State) {
    Held(s.seen, s.others, s.h) && Untouched(s.foreign, s.known, s.latest)
  }

  /** ... is what it may count on when it sleeps: the same two predicates with the roles swapped. */
  predicate Rely(s: State, s': State) {
    && Held(s.h, s.mine, s'.h) && Untouched(s.own, s.latest, s'.latest)
    && s'.own == s.own && s'.foreign == s.foreign
  }

  /** Any other process finds, when it runs again, what it may count on: its references are among `others`,
      its own blocks among `foreign`. */
  lemma PromiseIsRely(s: State, held: seq<nat>, blocks: set<Name>)
    requires Promise(s) && |held| == |s.others| && blocks <= s.foreign
    requires forall x | 0 <= x < |held| :: held[x] <= s.others[x]
    ensures Held(s.seen, held, s.h) && Untouched(blocks, s.known, s.latest)
  {
  }

  ghost predicate Good(s: State) {
    Structured(s) && Coherent(s) && Counted(s) && Promise(s)
  }

  lemma RelyRefl(s: State)
    requires Good(s)
    ensures Rely(s, s)
  {
  }

  lemma OnlyOne(s: State, x: nat)
    requires Good(s) && x < |s.h| && s.h[x].dev != 0
    ensures forall y | 0 <= y < |s.h| && NameOf(s.h[y]) == NameOf(s.h[x]) :: y == x
  {
    hide Hashed, Ringed, Coherent;
  }

  /** The free list passes through every buffer. */
  lemma RingFrom(s: State)
    requires Good(s)
    ensures |s.ring| == |s.h| >= 2 && s.free == s.ring[0] < |s.h| && forall y: nat | y < |s.h| :: y in s.ring
    ensures Distinct(s.ring)
  {
  }

  lemma RingStep(s: State, j: nat)
    requires Good(s) && j < |s.ring|
    ensures s.ring[j] < |s.h| && 0 <= s.h[s.ring[j]].nextFree < |s.h|
    ensures s.h[s.ring[j]].nextFree == s.ring[if j + 1 < |s.ring| then j + 1 else 0]
  {
  }

  /** The search of getblk, which began with `h0`, has looked at the places 1 to `i` of the free list and chosen `r`. */
  predicate Scanned(h0: seq<Head>, h: seq<Head>, ring: seq<nat>, r: int, i: nat) {
    && Chosen(h, r) && |h0| == |h|
    && forall j | 0 <= j < |ring| && (1 <= j <= i || i >= |ring|) :: Passed(h0, h, ring[j], r)
  }

  predicate Chosen(h: seq<Head>, r: int) {
    -1 <= r < |h| && (r >= 0 ==> h[r].count == 0 && Badness(h[r]) > 0)
  }

  /** Buffer `y`, if it was free, was no better than the one chosen is. */
  predicate Passed(h0: seq<Head>, h: seq<Head>, y: nat, r: int) {
    y < |h0| && (h0[y].count == 0 ==> 0 <= r < |h| && Badness(h0[y]) > 0 && Badness(h[r]) <= Badness(h0[y]))
  }

  /** None that was free was better: clean and unlocked is better than clean and locked, that better than dirty. */
  predicate Best(h0: seq<Head>, hd: Head) {
    forall y | 0 <= y < |h0| && h0[y].count == 0 ::
      (!h0[y].dirt ==> !hd.dirt) && (!h0[y].dirt && !h0[y].lock ==> !hd.lock)
  }

  lemma NoneBetter(h0: seq<Head>, hd: Head)
    requires Badness(hd) == 0
    ensures Best(h0, hd)
  {
  }

  lemma PassedFacts(h0: seq<Head>, h: seq<Head>, y: nat, r: int)
    requires Passed(h0, h, y, r)
    ensures y < |h0| && (h0[y].count == 0 ==> 0 <= r < |h| && Badness(h0[y]) > 0 && Badness(h[r]) <= Badness(h0[y]))
  {
  }

  lemma ScanStart(h: seq<Head>, ring: seq<nat>)
    requires ring != []
    ensures Scanned(h, h, ring, -1, 0)
  {
  }

  lemma ScanFacts(h0: seq<Head>, h: seq<Head>, ring: seq<nat>, r: int, i: nat)
    requires Scanned(h0, h, ring, r, i)
    ensures Chosen(h, r)
  {
  }

  lemma ScanStep(s0: State, s: State, s': State, r: int, r': int, i: nat)
    requires Scanned(s0.h, s.h, s.ring, r, i) && Started(s0, s) && Started(s, s') && |s.ring| >= 2 && i <= |s.ring|
    requires Chosen(s'.h, r') && (r >= 0 ==> r' >= 0 && Badness(s'.h[r']) <= Badness(s.h[r]))
    requires Passed(s.h, s'.h, s.ring[if i + 1 < |s.ring| then i + 1 else i + 1 - |s.ring|], r')
    ensures Scanned(s0.h, s'.h, s'.ring, r', i + 1)
  {
    hide Badness;
  }

  lemma ScanDone(h0: seq<Head>, h: seq<Head>, ring: seq<nat>, r: int)
    requires Scanned(h0, h, ring, r, |ring| + 1) && forall y: nat | y < |h| :: y in ring
    ensures forall y | 0 <= y < |h0| :: Passed(h0, h, y, r)
    ensures 0 <= r < |h| ==> Best(h0, h[r])
  {
    forall y: nat | y < |h0| ensures Passed(h0, h, y, r) {
      assert y in ring;
      var j :| 0 <= j < |ring| && ring[j] == y;
      assert Passed(h0, h, ring[j], r);
    }
    if 0 <= r < |h| {
      forall y | 0 <= y < |h0| && h0[y].count == 0
        ensures (!h0[y].dirt ==> !h[r].dirt) && (!h0[y].dirt && !h0[y].lock ==> !h[r].lock)
      {
        assert Passed(h0, h, y, r);
      }
    }
  }

  /** Every free-list link of a buffer leads to a buffer. */
  lemma NextFree(s: State, x: nat)
    requires Good(s) && x < |s.h|
    ensures 0 <= s.h[x].nextFree < |s.h|
  {
    hide Good;
    RingFrom(s);
    assert x in s.ring;
    var j :| 0 <= j < |s.ring| && s.ring[j] == x;
    RingStep(s, j);
  }

  lemma RelySizes(s: State, s': State)
    requires Rely(s, s')
    ensures |s'.h| == |s.h| == |s.mine|
  {
  }

  lemma HeldName(s: State, s': State, x: nat)
    requires Rely(s, s') && x < |s.h| && s.mine[x] > 0
    ensures x < |s'.h| && NameOf(s'.h[x]) == NameOf(s.h[x])
  {
  }

  lemma UpToDate(s: State, x: nat)
    requires Good(s) && x < |s.h| && s.h[x].uptodate
    ensures |s.data| == |s.h| && s.data[x] == Content(s.latest, NameOf(s.h[x]))
  {
  }

  lemma OwnKept(s: State, s': State)
    requires Rely(s, s')
    ensures Untouched(s.own, s.latest, s'.latest)
  {
  }

  lemma LockedIo(s: State, x: nat)
    requires Good(s) && x < |s.h| && s.h[x].lock
    ensures |s.io| == |s.h| && (s.io[x].Reading? || s.io[x].Writing?)
  {
  }

  /** A fresh cache: no block is in it, no buffer is held. */
  lemma StartGood(s: State, n: nat)
    requires |s.h| == |s.data| == |s.io| == |s.ring| == |s.mine| == |s.others| == n >= 2
    requires |s.table| == |s.chain| == NR_HASH && s.free == 0
    requires forall k | 0 <= k < NR_HASH :: s.table[k] == -1 && s.chain[k] == []
    requires forall x | 0 <= x < n :: s.io[x].Idle? && s.mine[x] == s.others[x] == 0 && s.ring[x] == x
    requires forall x | 0 <= x < n :: s.h[x] == Head(0, 0, false, false, 0, false, -1, -1,
                                                     if x == 0 then n - 1 else x - 1, if x == n - 1 then 0 else x + 1)
    requires s.disk == s.latest == s.known && s.seen == s.h
    ensures Good(s)
  {
    hide Hash, Ringed;
    StartRing(s.h, s.ring);
    assert Hashed(s.h, s.table, s.chain, -1);
  }

  lemma StartRing(h: seq<Head>, ring: seq<nat>)
    requires |h| == |ring| >= 2 && forall x | 0 <= x < |h| :: ring[x] == x
    requires forall x | 0 <= x < |h| ::
               && h[x].prevFree == (if x == 0 then |h| - 1 else x - 1)
               && h[x].nextFree == (if x == |h| - 1 then 0 else x + 1)
    ensures Ringed(h, 0, ring)
  {
    forall x: nat | x < |h| ensures x in ring { assert ring[x] == x; }
  }

  lemma GoodSizes(s: State)
    requires Good(s)
    ensures |s.data| == |s.io| == |s.mine| == |s.others| == |s.h| && |s.table| == |s.chain| == NR_HASH
    ensures forall x | 0 <= x < |s.h| :: s.h[x].count == s.mine[x] + s.others[x] && (s.h[x].dev == 0 ==>
              s.h[x].count == 0)
  {
  }

  lemma RestKeeps(s: State)
    requires Good(s)
    ensures var s' := s.(seen := s.h, known := s.latest); Good(s') && Rely(s, s')
  {
  }

  lemma RelyTwice(s: State, s1: State, s2: State)
    requires Rely(s, s1) && Rely(s1, s2)
    requires |s1.mine| == |s.mine| && forall x | 0 <= x < |s.mine| && s.mine[x] > 0 :: s1.mine[x] > 0
    ensures Rely(s, s2)
  {
  }

  /** A change of one buffer that leaves its links and its block alone. */
  predicate Local(s: State, s': State, x: nat) {
    && x < |s.h| == |s'.h| && s'.h == s.h[x := s'.h[x]]
    && s'.table == s.table && s'.free == s.free && s'.chain == s.chain && s'.ring == s.ring
    && SameLinks(s.h[x], s'.h[x])
  }

  predicate SameLinks(hd: Head, hd': Head) {
    && hd'.dev == hd.dev && hd'.blocknr == hd.blocknr && hd'.prev == hd.prev && hd'.next == hd.next
    && hd'.prevFree == hd.prevFree && hd'.nextFree == hd.nextFree
  }

  lemma LocalKeeps(s: State, s': State, x: nat)
    requires Structured(s) && |s'.h| == |s.h| && Local(s, s', x)
    ensures Structured(s')
  {
    hide Hash, Hashed, Ring;
    HashedSame(s.h, s'.h, s.table, s.chain, -1);
    RingedSame(s.h, s'.h, s.free, s.ring);
  }

  // ---------------------------------------------------------------- the steps

  /** The running process takes or gives back a reference. */
  function Use(s: State, x: nat, mine: nat): (s': State)
    requires |s.mine| == |s.others| == |s.h| && x < |s.h|
  {
    s.(h := s.h[x := s.h[x].(count := mine + s.others[x])], mine := s.mine[x := mine])
  }

  lemma UseKeeps(s: State, x: nat, mine: nat)
    requires Good(s) && x < |s.h| && (s.h[x].dev == 0 ==> mine == 0)
    ensures Good(Use(s, x, mine)) && Rely(s, Use(s, x, mine))
  {
    hide Structured;
    var s' := Use(s, x, mine);
    LocalKeeps(s, s', x);
    assert Coherent(s') by { CoherentByOwing(s, s'); }
  }

  /** Nothing that was owed is forgotten. */
  lemma CoherentByOwing(s: State, s': State)
    requires Coherent(s) && |s'.h| == |s.h| == |s'.data| == |s'.io|
    requires forall x | 0 <= x < |s.h| :: Usable(s'.h[x], s'.io[x])
    requires forall x | 0 <= x < |s.h| && s'.h[x].uptodate :: s'.data[x] == Content(s'.latest, NameOf(s'.h[x]))
    requires s'.disk == s.disk && s'.latest == s.latest
    requires forall x | 0 <= x < |s.h| && (s.h[x].dirt || s.io[x].Writing?) ::
               Owes(s'.h[x], s'.io[x], NameOf(s.h[x]))
    ensures Coherent(s')
  {
  }

  /** Locking a buffer and queueing its transfer; a write clears the dirty mark (add_request). */
  function StartIo(s: State, x: nat, write: bool): State
    requires x < |s.h| && |s.io| == |s.h|
  {
    if write then s.(h := s.h[x := s.h[x].(lock := true, dirt := false)], io := s.io[x := Writing])
    else s.(h := s.h[x := s.h[x].(lock := true)], io := s.io[x := Reading])
  }

  lemma StartIoKeeps(s: State, x: nat, write: bool)
    requires Good(s) && x < |s.h| && !s.h[x].lock
    requires if write then s.h[x].dirt else !s.h[x].uptodate && s.h[x].dev != 0
    ensures Good(StartIo(s, x, write)) && Rely(s, StartIo(s, x, write))
  {
    hide Structured;
    var s' := StartIo(s, x, write);
    LocalKeeps(s, s', x);
    CoherentByOwing(s, s');
  }

  /** BADNESS */
  function Badness(hd: Head): nat {
    (if hd.dirt then 2 else 0) + (if hd.lock then 1 else 0)
  }

  /** Some writes have been started, nothing else has happened. */
  predicate Started(s: State, s': State) {
    && |s'.h| == |s.h| && s' == s.(h := s'.h, io := s'.io)
    && forall y | 0 <= y < |s.h| :: s'.h[y] == s.h[y].(dirt := s'.h[y].dirt, lock := s'.h[y].lock)
                                    && (Badness(s'.h[y]) == 0 ==> Badness(s.h[y]) == 0)
                                    && Badness(s'.h[y]) <= Badness(s.h[y])
  }

  /** What sync_buffers does to an unlocked buffer. */
  function Flushed(hd: Head): Head {
    if hd.dirt then hd.(dirt := false, lock := true) else hd
  }

  /** The first `i` buffers of the free list have been flushed, and nothing else has changed. */
  predicate Walked(s: State, s': State, i: nat)
  {
    && i <= |s.ring| && |s'.h| == |s.h| && s'.ring == s.ring
    && (forall k | 0 <= k < i ::
         s.ring[k] < |s.h| && !s.h[s.ring[k]].lock && s'.h[s.ring[k]] == Flushed(s.h[s.ring[k]]))
    && (forall k | i <= k < |s.ring| :: s.ring[k] < |s.h| && s'.h[s.ring[k]] == s.h[s.ring[k]])
  }

  predicate Unlocked(h: seq<Head>) {
    forall y | 0 <= y < |h| :: !h[y].lock
  }

  /** The walk comes to a buffer that is as it was. */
  lemma WalkedTo(s: State, s1: State, i: nat)
    requires Good(s) && Walked(s, s1, i) && i < |s.ring|
    ensures s.ring[i] < |s.h| == |s1.h| && (Unlocked(s.h) ==> !s1.h[s.ring[i]].lock)
  {
    RingFrom(s);
  }

  lemma WalkedNone(s: State)
    requires Good(s)
    ensures Walked(s, s, 0) && s.free == s.ring[0]
  {
  }

  lemma WalkedOn(s: State, s1: State, s2: State, i: nat)
    requires Good(s) && Walked(s, s1, i) && i < |s.ring| && |s1.io| == |s1.h|
    requires s.ring[i] < |s1.h| && !s1.h[s.ring[i]].lock
    requires s2 == if s1.h[s.ring[i]].dirt then StartIo(s1, s.ring[i], true) else s1
    ensures Walked(s, s2, i + 1)
    ensures s2.h[s.ring[i]].nextFree == s.ring[if i + 1 < |s.ring| then i + 1 else 0]
  {
    hide Good;
    RingFrom(s);
    RingStep(s, i);
    var x := s.ring[i];
    forall k | 0 <= k < |s.ring| && k != i ensures s.ring[k] != x && s2.h[s.ring[k]] == s1.h[s.ring[k]] {}
  }

  lemma WalkedAll(s: State, s': State)
    requires Good(s) && Walked(s, s', |s.ring|)
    ensures |s'.h| == |s.h| && Unlocked(s.h) && forall y | 0 <= y < |s.h| :: s'.h[y] == Flushed(s.h[y])
  {
    RingFrom(s);
    hide Good;
    forall y | 0 <= y < |s.h| ensures s'.h[y] == Flushed(s.h[y]) && !s.h[y].lock {
      var k := IndexOf(s.ring, y);
      assert s.ring[k] == y;
    }
  }

  lemma StartedRefl(s: State)
    ensures Started(s, s)
  {
  }

  lemma StartedTwice(s: State, s1: State, s2: State)
    requires Started(s, s1) && Started(s1, s2)
    ensures Started(s, s2)
  {
  }

  lemma StartedNames(s: State, s': State)
    requires Started(s, s')
    ensures |s'.h| == |s.h| && forall y | 0 <= y < |s.h| :: NameOf(s'.h[y]) == NameOf(s.h[y])
  {
  }

  lemma StartedAt(s: State, s': State, y: nat)
    requires Started(s, s') && y < |s.h|
    ensures y < |s'.h| && s'.h[y].count == s.h[y].count && (Badness(s'.h[y]) == 0 ==> Badness(s.h[y]) == 0)
  {
  }

  lemma StartedFacts(s: State, s': State)
    requires Started(s, s')
    ensures |s'.h| == |s.h| && s'.ring == s.ring && s'.mine == s.mine
    ensures forall y | 0 <= y < |s.h| :: s'.h[y].nextFree == s.h[y].nextFree && s'.h[y].count == s.h[y].count
  {
  }

  /** The transfer has been done: end_request and unlock_buffer. */
  function EndIo(s: State, x: nat, ok: bool): State
    requires x < |s.h| && |s.io| == |s.data| == |s.h|
  {
    var s1 := s.(h := s.h[x := s.h[x].(lock := false, uptodate := ok)], io := s.io[x := Idle]);
    if s.io[x].Writing? then s1.(disk := s.disk[NameOf(s.h[x]) := s.data[x]])
    else if ok then s1.(data := s.data[x := Content(s.disk, NameOf(s.h[x]))])
    else s1
  }

  lemma EndIoKeeps(s: State, x: nat, ok: bool)
    requires Good(s) && x < |s.h| && s.h[x].lock && (ok || s.io[x].Reading?)
    ensures Good(EndIo(s, x, ok)) && Rely(s, EndIo(s, x, ok))
  {
    hide Structured;
    var s' := EndIo(s, x, ok);
    LocalKeeps(s, s', x);
    EndIoCoherent(s, x, ok);
  }

  lemma EndIoCoherent(s: State, x: nat, ok: bool)
    requires Structured(s) && Coherent(s) && x < |s.h| && s.h[x].lock && (ok || s.io[x].Reading?)
    ensures Coherent(EndIo(s, x, ok))
  {
    hide Hashed, Ringed;
    var s', n0 := EndIo(s, x, ok), NameOf(s.h[x]);
    assert forall y | 0 <= y < |s.h| && Owes(s.h[y], s.io[y], n0) :: y == x;
    forall n | Content(s'.disk, n) != Content(s'.latest, n)
      ensures exists y :: 0 <= y < |s'.h| && Owes(s'.h[y], s'.io[y], n)
    {
      assert s.io[x].Writing? ==> n != n0;
      var y :| 0 <= y < |s.h| && Owes(s.h[y], s.io[y], n);
      assert y != x && Owes(s'.h[y], s'.io[y], n);
    }
  }

  /** The holder of a buffer changes its bytes and marks it up to date and dirty. */
  function Store(s: State, x: nat, bytes: Block): State
    requires x < |s.h| && |s.data| == |s.h|
  {
    s.(h := s.h[x := s.h[x].(uptodate := true, dirt := true)], data := s.data[x := bytes],
       latest := s.latest[NameOf(s.h[x]) := bytes])
  }

  /** A partial update needs the old bytes; a whole one needs no pending read. */
  lemma StoreKeeps(s: State, x: nat, bytes: Block)
    requires Good(s) && x < |s.h| && s.mine[x] > 0 && (s.h[x].uptodate || !s.h[x].lock)
    requires NameOf(s.h[x]) !in s.foreign
    ensures Good(Store(s, x, bytes))
    ensures Held(s.h, s.mine, Store(s, x, bytes).h)
  {
    hide Structured;
    var s' := Store(s, x, bytes);
    LocalKeeps(s, s', x);
    StoreCoherent(s, x, bytes);
  }

  lemma StoreCoherent(s: State, x: nat, bytes: Block)
    requires Structured(s) && Coherent(s) && x < |s.h| && s.h[x].dev != 0 && (s.h[x].uptodate || !s.h[x].lock)
    ensures Coherent(Store(s, x, bytes))
  {
    hide Hashed, Ringed;
    var s', n0 := Store(s, x, bytes), NameOf(s.h[x]);
    forall n | Content(s'.disk, n) != Content(s'.latest, n)
      ensures exists y :: 0 <= y < |s'.h| && Owes(s'.h[y], s'.io[y], n)
    {
      if n == n0 {
        assert Owes(s'.h[x], s'.io[x], n);
      } else {
        var y :| 0 <= y < |s.h| && Owes(s.h[y], s.io[y], n);
        assert Owes(s'.h[y], s'.io[y], n);
      }
    }
  }

  /** What was last stored for the block counts no more: its last bytes are those on the disk. */
  function Forget(s: State, x: nat): State
    requires x < |s.h|
  {
    var n := NameOf(s.h[x]);
    s.(h := s.h[x := s.h[x].(dirt := false, uptodate := false)], latest := s.latest[n := Content(s.disk, n)])
  }

  /** The contents of a buffer that nobody else holds may be given up. */
  lemma ForgetKeeps(s: State, x: nat)
    requires Good(s) && x < |s.h| && s.h[x].dev != 0 && !s.h[x].lock && s.others[x] == 0
    requires NameOf(s.h[x]) !in s.foreign
    ensures Good(Forget(s, x))
  {
    hide Structured, Coherent;
    LocalKeeps(s, Forget(s, x), x);
    ForgetCoherent(s, x);
  }

  lemma ForgetCoherent(s: State, x: nat)
    requires Structured(s) && Coherent(s) && x < |s.h| && s.h[x].dev != 0 && !s.h[x].lock
    ensures Coherent(Forget(s, x))
  {
    hide Hashed, Ringed;
    var s' := Forget(s, x);
    forall n | Content(s'.disk, n) != Content(s'.latest, n)
      ensures exists y :: 0 <= y < |s'.h| && Owes(s'.h[y], s'.io[y], n)
    {
      var y :| 0 <= y < |s.h| && Owes(s.h[y], s.io[y], n);
      assert Owes(s'.h[y], s'.io[y], n);
    }
  }

  // ---------------------------------------------------------------- steps that move buffers between lists

  /** put_last_free: at the front, the ring is only entered one buffer later. */
  function PutLast(s: State, x: nat): State
    requires x < |s.h| && x in s.ring && CanLeave(s.h, s.free, x)
  {
    if s.free == x then s.(free := s.h[x].nextFree, ring := s.ring[1..] + [s.ring[0]])
    else s.(h := Join(Leave(s.h, x), x, s.free), ring := Without(s.ring, IndexOf(s.ring, x)) + [x])
  }

  /** The links that are followed on the way lead to buffers. */
  predicate CanLeave(h: seq<Head>, free: int, x: nat)
    requires x < |h|
  {
    && 0 <= h[x].nextFree < |h| && 0 <= h[x].prevFree < |h|
    && var h1, free1 := Leave(h, x), if free == x then h[x].nextFree else free;
       0 <= free1 < |h1| && 0 <= h1[free1].prevFree < |h1|
  }

  lemma PutLastKeeps(s: State, x: nat)
    requires Good(s) && x < |s.h|
    ensures x in s.ring && CanLeave(s.h, s.free, x)
    ensures Good(PutLast(s, x)) && Rely(s, PutLast(s, x))
  {
    hide Hash, Hashed, Ring, Leave, Join, Without, IndexOf, Opened, Coherent, Counted, Promise, Rely;
    RingedLeave(s.h, s.free, s.ring, x);
    var h1, ring1 := Leave(s.h, x), Without(s.ring, IndexOf(s.ring, x));
    var free1 := if s.free == x then s.h[x].nextFree else s.free;
    RingedJoin(h1, free1, ring1, x);
    var s' := PutLast(s, x);
    if s.free == x {
      TurnRing(s.h, s.free, s.ring);
      assert forall y | y in s.ring :: y in s.ring[1..] + [s.ring[0]];
    } else {
      HashedSame(s.h, s'.h, s.table, s.chain, -1);
    }
    hide Ringed;
    RelinkKeeps(s, s');
  }

  /** Moving buffers in the lists concerns nothing but the lists. */
  lemma RelinkKeeps(s: State, s': State)
    requires Coherent(s) && Counted(s) && Promise(s) && |s'.h| == |s.h|
    requires s' == s.(h := s'.h, table := s'.table, free := s'.free, chain := s'.chain, ring := s'.ring)
    requires forall y | 0 <= y < |s.h| :: SameButLinks(s.h[y], s'.h[y])
    ensures Coherent(s') && Counted(s') && Promise(s') && Rely(s, s')
  {
  }

  /** remove_from_queues */
  function TakeOut(s: State, x: nat): State
    requires CanTakeOut(s, x)
  {
    var h1 := Unlink(s.h, x);
    s.(h := Leave(h1, x), table := UnlinkTable(s.h, s.table, x), chain := UnlinkChains(s.h, s.chain, x),
       free := if s.free == x then h1[x].nextFree else s.free, ring := Without(s.ring, IndexOf(s.ring, x)))
  }

  predicate CanTakeOut(s: State, x: nat) {
    && x < |s.h| && |s.table| == |s.chain| == NR_HASH && x in s.ring
    && s.h[x].next < |s.h| && s.h[x].prev < |s.h|
    && var h1 := Unlink(s.h, x);
       x < |h1| && 0 <= h1[x].nextFree < |h1| && 0 <= h1[x].prevFree < |h1|
  }

  /** insert_into_queues of a buffer with a device */
  function PutIn(s: State, x: nat): State
    requires CanPutIn(s, x)
  {
    var h1, k := Join(s.h, x, s.free), Hash(s.h[x].dev, s.h[x].blocknr);
    s.(h := Link(h1, x, s.table[k]), table := s.table[k := x], chain := s.chain[k := [x] + s.chain[k]],
       ring := s.ring + [x])
  }

  predicate CanPutIn(s: State, x: nat) {
    && x < |s.h| && |s.table| == |s.chain| == NR_HASH
    && 0 <= s.free < |s.h| && 0 <= s.h[s.free].prevFree < |s.h| && |Join(s.h, x, s.free)| == |s.h|
    && s.table[Hash(s.h[x].dev, s.h[x].blocknr)] < |s.h|
  }

  /** A buffer in neither structure; all others are in theirs. */
  ghost predicate Loose(s: State, x: nat) {
    Hashed(s.h, s.table, s.chain, x) && Opened(s.h, s.free, s.ring, x)
  }

  lemma TakeOutLoose(s: State, x: nat)
    requires Structured(s) && x < |s.h|
    ensures CanTakeOut(s, x) && Loose(TakeOut(s, x), x)
    ensures var h' := TakeOut(s, x).h; |h'| == |s.h| && forall y | 0 <= y < |s.h| :: SameButLinks(s.h[y], h'[y])
  {
    hide Hash, Hashed, Ring, Opened, Unlink, Without, IndexOf, UnlinkTable, UnlinkChains;
    HashedSizes(s.h, s.table, s.chain, -1);
    LinksInside(s.h, s.table, s.chain, x);
    UnlinkFrame(s.h, x);
    HashedUnlink(s.h, s.table, s.chain, x);
    hide Ringed;
    var h1 := Unlink(s.h, x);
    RingedSame(s.h, h1, s.free, s.ring);
    RingedLeave(h1, s.free, s.ring, x);
    hide Leave;
    var s' := TakeOut(s, x);
    HashedSame(h1, s'.h, s'.table, s'.chain, x);
  }

  lemma PutInKeeps(s: State, x: nat)
    requires Loose(s, x) && x < |s.h| && s.h[x].dev != 0 && Unique(s.h)
    ensures CanPutIn(s, x) && Structured(PutIn(s, x))
    ensures var h' := PutIn(s, x).h; |h'| == |s.h| && forall y | 0 <= y < |s.h| :: SameButLinks(s.h[y], h'[y])
  {
    hide Hash, Hashed, Ring, Opened;
    RingedJoin(s.h, s.free, s.ring, x);
    hide Join;
    var h1, k := Join(s.h, x, s.free), Hash(s.h[x].dev, s.h[x].blocknr);
    HashedSame(s.h, h1, s.table, s.chain, x);
    HashedSizes(h1, s.table, s.chain, x);
    HashedLink(h1, s.table, s.chain, x);
    LinkFrame(h1, x, s.table[k]);
    hide Ringed, Link;
    RingedSame(h1, Link(h1, x, s.table[k]), s.free, s.ring + [x]);
  }

  lemma LinkFrame(h: seq<Head>, b: nat, first: int)
    requires b < |h| && first < |h|
    ensures |Link(h, b, first)| == |h|
    ensures forall y | 0 <= y < |h| ::
              Link(h, b, first)[y] == h[y].(next := Link(h, b, first)[y].next, prev := Link(h, b, first)[y].prev)
  {
  }

  predicate SameButLinks(hd: Head, hd': Head) {
    hd' == hd.(next := hd'.next, prev := hd'.prev, nextFree := hd'.nextFree, prevFree := hd'.prevFree)
  }

  /** The end of getblk: out of the lists, a new name, and into the lists again. */
  function Rename(s: State, x: nat, n: Name): State
    requires x < |s.h| && |s.mine| == |s.h|
  {
    s.(h := s.h[x := s.h[x].(count := 1, dirt := false, uptodate := false, dev := n.dev, blocknr := n.blocknr)],
       mine := s.mine[x := 1])
  }

  predicate CanAssign(s: State, x: nat, n: Name) {
    && CanTakeOut(s, x) && |s.mine| == |s.h| && x < |TakeOut(s, x).h| == |s.h|
    && CanPutIn(Rename(TakeOut(s, x), x, n), x)
  }

  function Assign(s: State, x: nat, n: Name): State
    requires CanAssign(s, x, n)
  {
    PutIn(Rename(TakeOut(s, x), x, n), x)
  }

  /** What getblk has made sure of: the buffer is unused, unlocked and clean, and the block is cached nowhere. */
  predicate Free(s: State, x: nat, n: Name) {
    && x < |s.h| && s.h[x].count == 0 && !s.h[x].lock && !s.h[x].dirt && n.dev != 0
    && forall y | 0 <= y < |s.h| :: NameOf(s.h[y]) != n
  }

  lemma TakeOutSizes(s: State, x: nat)
    requires CanTakeOut(s, x)
    ensures |TakeOut(s, x).mine| == |s.mine|
  {
  }

  lemma AssignStructured(s: State, x: nat, n: Name)
    requires Structured(s) && Counted(s) && Free(s, x, n)
    ensures CanAssign(s, x, n) && Structured(Assign(s, x, n))
    ensures var s' := Assign(s, x, n);
            |s'.h| == |s.h| && forall y | 0 <= y < |s.h| :: SameButLinks(Rename(s, x, n).h[y], s'.h[y])
  {
    hide Hash, Hashed, Opened, Ringed;
    TakeOutLoose(s, x);
    hide TakeOut, CanTakeOut;
    var s1 := TakeOut(s, x);
    var s2 := Rename(s1, x, n);
    HashedSame(s1.h, s2.h, s1.table, s1.chain, x);
    OpenedSame(s1.h, s2.h, s1.free, s1.ring, x);
    assert Unique(s2.h);
    hide Unique;
    PutInKeeps(s2, x);
    hide PutIn, CanPutIn;
  }

  lemma AssignKeeps(s: State, x: nat, n: Name)
    requires Good(s) && Free(s, x, n)
    ensures CanAssign(s, x, n) && Good(Assign(s, x, n)) && Rely(s, Assign(s, x, n))
    ensures var s' := Assign(s, x, n); NameOf(s'.h[x]) == n && s'.mine == s.mine[x := 1]
  {
    hide Structured, Hash;
    AssignStructured(s, x, n);
    RenameKeeps(s, x, n);
    hide Coherent, Counted, Held;
    RelinkKeeps(Rename(s, x, n), Assign(s, x, n));
  }

  /** The old block needs no buffer: it is on the disk.  The new one has no other. */
  lemma RenameKeeps(s: State, x: nat, n: Name)
    requires Coherent(s) && Counted(s) && Promise(s) && Free(s, x, n)
    ensures var s' := Rename(s, x, n); Coherent(s') && Counted(s') && Promise(s') && Rely(s, s')
  {
  }

  lemma OpenedSame(h: seq<Head>, h': seq<Head>, free: int, ring: seq<nat>, b: nat)
    requires Opened(h, free, ring, b) && |h'| == |h|
    requires forall x | 0 <= x < |h| :: h'[x].nextFree == h[x].nextFree && h'[x].prevFree == h[x].prevFree
    ensures Opened(h', free, ring, b)
  {
  }
}
