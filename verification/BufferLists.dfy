/** The two linked structures of the buffer cache (fs/buffer.c): hash chains with links both ways and
    the ring of all buffers, as the words of the buffer heads spell them. */
module BufferLists {
  import opened Sequences

  /** A buffer head; links are indices of buffers, -1 is NULL. */
  datatype Head = Head(dev: nat, blocknr: nat, uptodate: bool, dirt: bool, count: nat, lock: bool,
                       prev: int, next: int, prevFree: int, nextFree: int)

  predicate InRange(h: seq<Head>, list: seq<nat>) {
    forall i | 0 <= i < |list| :: list[i] < |h|
  }

  function At(list: seq<nat>, i: int): int {
    if 0 <= i < |list| then list[i] else -1
  }

  // ---------------------------------------------------------------- hash chains

  /** From `head`, `next` runs through the list and `prev` runs back. */
  predicate Chain(h: seq<Head>, head: int, list: seq<nat>) {
    && InRange(h, list) && Distinct(list)
    && head == At(list, 0)
    && forall i {:trigger h[list[i]]} | 0 <= i < |list| ::
         h[list[i]].next == At(list, i + 1) && h[list[i]].prev == At(list, i - 1)
  }

  /** remove_from_hash_queue, without the table. */
  function Unlink(h: seq<Head>, b: nat): seq<Head>
    requires b < |h| && h[b].next < |h| && h[b].prev < |h|
  {
    var h1 := if h[b].next >= 0 then h[h[b].next := h[h[b].next].(prev := h[b].prev)] else h;
    var h2 := if h1[b].prev >= 0 then h1[h1[b].prev := h1[h1[b].prev].(next := h1[b].next)] else h1;
    h2[b := h2[b].(next := -1, prev := -1)]
  }

  lemma UnlinkAt(h: seq<Head>, head: int, list: seq<nat>, i: nat, j: nat)
    requires Chain(h, head, list) && i < |list| && j < |list| - 1
    ensures var b := list[i]; h[b].next < |h| && h[b].prev < |h|
    ensures var h', r := Unlink(h, list[i]), Without(list, i);
            h'[r[j]].next == At(r, j + 1) && h'[r[j]].prev == At(r, j - 1)
  {
  }

  /** Unlinking a buffer removes it from its chain and keeps the links of the rest in both directions. */
  lemma UnlinkChain(h: seq<Head>, head: int, list: seq<nat>, i: nat)
    requires Chain(h, head, list) && i < |list|
    ensures var b := list[i]; h[b].next < |h| && h[b].prev < |h|
    ensures var b := list[i];
            Chain(Unlink(h, b), if head == b then h[b].next else head, Without(list, i))
  {
    var b, r := list[i], Without(list, i);
    assert h[b].next == At(list, i + 1) && h[b].prev == At(list, i - 1);
    var h' := Unlink(h, b);
    WithoutDistinct(list, i);
    forall j {:trigger h'[r[j]]} | 0 <= j < |r| ensures h'[r[j]].next == At(r, j + 1) && h'[r[j]].prev == At(r, j - 1) {
      UnlinkAt(h, head, list, i, j);
    }
  }

  /** The rest of the heads, and every other field, stay as they are. */
  lemma UnlinkFrame(h: seq<Head>, b: nat)
    requires b < |h| && h[b].next < |h| && h[b].prev < |h|
    ensures var h' := Unlink(h, b);
            |h'| == |h| && h'[b].next == h'[b].prev == -1
            && (forall x | 0 <= x < |h| :: h'[x] == h[x].(next := h'[x].next, prev := h'[x].prev))
            && (forall x | 0 <= x < |h| && x != b && x != h[b].next && x != h[b].prev :: h'[x] == h[x])
  {
  }

  /** The hash part of insert_into_queues, without the table; `first` heads the chain. */
  function Link(h: seq<Head>, b: nat, first: int): seq<Head>
    requires b < |h| && first < |h|
  {
    var h1 := h[b := h[b].(prev := -1, next := first)];
    if first >= 0 then h1[first := h1[first].(prev := b)] else h1
  }

  lemma LinkChain(h: seq<Head>, head: int, list: seq<nat>, b: nat)
    requires Chain(h, head, list) && b < |h| && b !in list
    ensures head < |h| && Chain(Link(h, b, head), b, [b] + list)
  {
  }

  lemma OtherChain(h: seq<Head>, h': seq<Head>, head: int, list: seq<nat>)
    requires Chain(h, head, list) && |h'| == |h|
    requires forall x | x in list && x < |h| :: h'[x].next == h[x].next && h'[x].prev == h[x].prev
    ensures Chain(h', head, list)
  {
  }

  // ---------------------------------------------------------------- the ring of all buffers

  function Wrap(list: seq<nat>, i: int): nat
    requires list != []
  {
    if 0 <= i < |list| then list[i] else if i < 0 then list[|list| - 1] else list[0]
  }

  /** The free list is one cycle through all buffers; it starts at `free`. */
  predicate Ring(h: seq<Head>, free: int, list: seq<nat>) {
    && InRange(h, list) && Distinct(list) && list != []
    && free == list[0]
    && forall i {:trigger h[list[i]]} | 0 <= i < |list| ::
         h[list[i]].nextFree == Wrap(list, i + 1) && h[list[i]].prevFree == Wrap(list, i - 1)
  }

  /** remove_from_free_list */
  function Leave(h: seq<Head>, b: nat): seq<Head>
    requires b < |h| && 0 <= h[b].nextFree < |h| && 0 <= h[b].prevFree < |h|
  {
    var p, n := h[b].prevFree, h[b].nextFree;
    var h1 := h[p := h[p].(nextFree := n)];
    var h2 := h1[n := h1[n].(prevFree := p)];
    h2[b := h2[b].(nextFree := -1, prevFree := -1)]
  }

  lemma LeaveFields(h: seq<Head>, b: nat, x: nat)
    requires b < |h| && x < |h| && x != b && 0 <= h[b].nextFree < |h| && 0 <= h[b].prevFree < |h|
    requires h[b].nextFree != b && h[b].prevFree != b
    ensures |Leave(h, b)| == |h|
    ensures Leave(h, b)[x].nextFree == (if x == h[b].prevFree then h[b].nextFree else h[x].nextFree)
    ensures Leave(h, b)[x].prevFree == (if x == h[b].nextFree then h[b].prevFree else h[x].prevFree)
  {
  }

  /** Neighbours in the shorter ring. */
  lemma WithoutWrap(list: seq<nat>, i: nat, j: nat)
    requires Distinct(list) && i < |list| && j < |list| - 1
    ensures var r, k := Without(list, i), if j < i then j else j + 1;
            && r[j] == list[k] != list[i]
            && Wrap(r, j + 1) == (if Wrap(list, k + 1) == list[i] then Wrap(list, i + 1) else Wrap(list, k + 1))
            && Wrap(r, j - 1) == (if Wrap(list, k - 1) == list[i] then Wrap(list, i - 1) else Wrap(list, k - 1))
  {
  }

  lemma LeaveAt(h: seq<Head>, free: int, list: seq<nat>, i: nat, j: nat)
    requires Ring(h, free, list) && i < |list| && j < |list| - 1
    ensures var b := list[i]; 0 <= h[b].nextFree < |h| && 0 <= h[b].prevFree < |h|
    ensures var h', r := Leave(h, list[i]), Without(list, i);
            h'[r[j]].nextFree == Wrap(r, j + 1) && h'[r[j]].prevFree == Wrap(r, j - 1)
  {
    hide Leave;
    var b, r := list[i], Without(list, i);
    assert h[b].nextFree == Wrap(list, i + 1) && h[b].prevFree == Wrap(list, i - 1);
    WithoutWrap(list, i, j);
    var k := if j < i then j else j + 1;
    assert h[list[k]].nextFree == Wrap(list, k + 1) && h[list[k]].prevFree == Wrap(list, k - 1);
    LeaveFields(h, b, r[j]);
  }

  lemma LeaveRing(h: seq<Head>, free: int, list: seq<nat>, i: nat)
    requires Ring(h, free, list) && i < |list| && |list| >= 2
    ensures var b := list[i]; 0 <= h[b].nextFree < |h| && 0 <= h[b].prevFree < |h|
    ensures var b := list[i]; Ring(Leave(h, b), if free == b then h[b].nextFree else free, Without(list, i))
  {
    var b, r := list[i], Without(list, i);
    assert h[b].nextFree == Wrap(list, i + 1) && h[b].prevFree == Wrap(list, i - 1);
    var h' := Leave(h, b);
    WithoutDistinct(list, i);
    forall j {:trigger h'[r[j]]} | 0 <= j < |r| ensures h'[r[j]].nextFree == Wrap(r, j + 1)
         && h'[r[j]].prevFree == Wrap(r, j - 1) {
      LeaveAt(h, free, list, i, j);
    }
  }

  /** The free-list part of insert_into_queues and put_last_free: `b` goes before `free`. */
  function Join(h: seq<Head>, b: nat, free: nat): seq<Head>
    requires b < |h| && free < |h| && 0 <= h[free].prevFree < |h|
  {
    var last := h[free].prevFree;
    var h1 := h[b := h[b].(nextFree := free, prevFree := last)];
    var h2 := h1[last := h1[last].(nextFree := b)];
    h2[free := h2[free].(prevFree := b)]
  }

  lemma JoinRing(h: seq<Head>, free: nat, list: seq<nat>, b: nat)
    requires Ring(h, free, list) && b < |h| && b !in list
    ensures 0 <= h[free].prevFree < |h| && Ring(Join(h, b, free), free, list + [b])
  {
  }

  /** put_last_free of the buffer at the front: the ring is entered one buffer later. */
  lemma TurnRing(h: seq<Head>, free: nat, list: seq<nat>)
    requires Ring(h, free, list)
    ensures Ring(h, h[free].nextFree, list[1..] + [list[0]])
  {
  }

}
