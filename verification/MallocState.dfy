/** The heap of lib/malloc.c: bucket descriptors in lists by size, and free objects threaded through the pages. */
module MallocState {
  import opened Kernel
  import opened Sequences

  const SPARE := 9

  datatype Desc = Desc(page: nat, next: nat, freeptr: nat, refcnt: nat, size: nat)

  /** `lists` are the chains of the nine sizes and, last, the unused descriptors; `home` tells the list of each
      descriptor, `free` the free objects of each bucket, `bucketOf` the bucket of each page. */
  datatype Heap = Heap(desc: map<nat, Desc>, heads: seq<nat>, lists: seq<seq<nat>>, home: map<nat, nat>,
                       mem: map<nat, nat>, free: map<nat, seq<nat>>, bucketOf: map<nat, nat>, descPages: set<nat>)

  /** bucket_dir: the object sizes, in order. */
  function SizeAt(i: nat): (n: nat)
    ensures i < 9 ==> IsSize(n)
  {
    match i
    case 0 => 16
    case 1 => 32
    case 2 => 64
    case 3 => 128
    case 4 => 256
    case 5 => 512
    case 6 => 1024
    case 7 => 2048
    case _ => 4096
  }

  predicate IsSize(n: nat) {
    n == 16 || n == 32 || n == 64 || n == 128 || n == 256 || n == 512 || n == 1024 || n == 2048 || n == 4096
  }

  function Nth(list: seq<nat>, i: nat): nat {
    if i < |list| then list[i] else 0
  }

  // ---------------------------------------------------------------- lists of descriptors

  predicate Chained(desc: map<nat, Desc>, head: nat, list: seq<nat>) {
    && Distinct(list) && head == Nth(list, 0) && (forall b | b in list :: b in desc && b != 0)
    && forall i {:trigger desc[list[i]]} | 0 <= i < |list| :: desc[list[i]].next == Nth(list, i + 1)
  }

  lemma ChainedSame(desc: map<nat, Desc>, desc': map<nat, Desc>, head: nat, list: seq<nat>)
    requires Chained(desc, head, list)
    requires forall b | b in list :: b in desc' && desc'[b].next == desc[b].next
    ensures Chained(desc', head, list)
  {
  }

  lemma ChainedPush(desc: map<nat, Desc>, desc': map<nat, Desc>, head: nat, list: seq<nat>, b: nat)
    requires Chained(desc, head, list) && b !in list && b != 0 && b in desc' && desc'[b].next == head
    requires forall x | x in list :: x in desc' && desc'[x].next == desc[x].next
    ensures Chained(desc', b, [b] + list)
  {
  }

  lemma ChainedPop(desc: map<nat, Desc>, head: nat, list: seq<nat>)
    requires Chained(desc, head, list) && list != []
    ensures head == list[0] && Chained(desc, desc[head].next, list[1..])
  {
  }

  /** Taking the element after `list[i - 1]`, or the first one, out of its list. */
  lemma ChainedDrop(desc: map<nat, Desc>, desc': map<nat, Desc>, head: nat, list: seq<nat>, i: nat)
    requires Chained(desc, head, list) && i < |list| && desc'.Keys == desc.Keys
    requires forall x | x in list && (i == 0 || x != list[i - 1]) && x != list[i] :: desc'[x].next == desc[x].next
    requires i > 0 ==> desc'[list[i - 1]].next == desc[list[i]].next
    ensures Chained(desc', if i == 0 then desc[list[0]].next else head, Without(list, i))
  {
  }

  // ---------------------------------------------------------------- free objects

  function Word(mem: map<nat, nat>, a: nat): nat {
    if a in mem then mem[a] else 0
  }

  /** `a` is one of the objects of size `size` the page is cut into. */
  predicate IsObject(page: nat, size: nat, a: nat) {
    IsSize(size) && page <= a && a + size <= page + PAGE_SIZE && (a - page) % size == 0
  }

  lemma ObjectsApart(page: nat, size: nat, a: nat, b: nat)
    requires IsObject(page, size, a) && IsObject(page, size, b) && a < b
    ensures a + size <= b
  {
    if size == 16 {} else if size == 32 {} else if size == 64 {} else if size == 128 {} else if size == 256 {}
    else if size == 512 {} else if size == 1024 {} else if size == 2048 {}
  }

  function PageOf(a: nat): nat {
    a - a % PAGE_SIZE
  }

  lemma PageRange(p: nat, x: nat)
    requires p % PAGE_SIZE == 0 && p <= x < p + PAGE_SIZE
    ensures PageOf(x) == p
  {
  }

  lemma ObjectPage(page: nat, size: nat, a: nat)
    requires IsObject(page, size, a) && page % PAGE_SIZE == 0
    ensures PageOf(a) == page && size > 0
  {
  }

  /** From `head`, the first words of the free objects run through the list. */
  predicate FreeChain(mem: map<nat, nat>, head: nat, list: seq<nat>, page: nat, size: nat) {
    && Distinct(list) && head == Nth(list, 0) && (forall a | a in list :: IsObject(page, size, a))
    && forall i {:trigger Word(mem, list[i])} | 0 <= i < |list| :: Word(mem, list[i]) == Nth(list, i + 1)
  }

  lemma FreeChainPop(mem: map<nat, nat>, head: nat, list: seq<nat>, page: nat, size: nat)
    requires FreeChain(mem, head, list, page, size) && list != []
    ensures head == list[0] && FreeChain(mem, Word(mem, head), list[1..], page, size) && head !in list[1..]
  {
  }

  lemma FreeChainPush(mem: map<nat, nat>, head: nat, list: seq<nat>, page: nat, size: nat, a: nat)
    requires FreeChain(mem, head, list, page, size) && a !in list && IsObject(page, size, a)
    ensures FreeChain(mem[a := head], a, [a] + list, page, size)
  {
    hide IsObject;
    var r, mem' := [a] + list, mem[a := head];
    assert forall i | 0 <= i < |list| :: r[i + 1] == list[i] && list[i] in list;
    forall i {:trigger Word(mem', r[i])} | 0 <= i < |r| ensures Word(mem', r[i]) == Nth(r, i + 1) {
      if i > 0 { assert r[i] == list[i - 1] && Word(mem, list[i - 1]) == Nth(list, i); }
    }
  }

  // ---------------------------------------------------------------- what holds of every heap

  predicate On(h: Heap, i: nat, b: nat) {
    i < |h.lists| && b in h.lists[i]
  }

  ghost predicate Chains(h: Heap) {
    |h.heads| == |h.lists| == 10 && forall i {:trigger h.lists[i]} | 0 <= i < 10 ::
        Chained(h.desc, h.heads[i], h.lists[i])
  }

  /** Each descriptor is in exactly the list `home` tells. */
  ghost predicate Homes(h: Heap) {
    && h.home.Keys == h.desc.Keys
    && (forall b {:trigger h.home[b]} | b in h.desc :: On(h, h.home[b], b) && h.home[b] < 10)
    && (forall i, b {:trigger On(h, i, b)} | On(h, i, b) :: b in h.home && h.home[b] == i)
    && (forall b | b in h.desc :: PageOf(b) in h.descPages)
  }

  ghost predicate Lists(h: Heap) {
    Chains(h) && Homes(h)
  }

  predicate IsBucket(h: Heap, b: nat) {
    b in h.desc && b in h.home && h.home[b] < 9
  }

  /** A bucket: its free list and its count make up the page. */
  predicate BucketOk(h: Heap, b: nat)
    requires b in h.desc && b in h.home && h.home[b] < 9
  {
    var d := h.desc[b];
    && d.size == SizeAt(h.home[b]) && d.page % PAGE_SIZE == 0 && d.page != 0
    && d.page in h.bucketOf && h.bucketOf[d.page] == b && b in h.free
    && FreeChain(h.mem, d.freeptr, h.free[b], d.page, d.size)
    && d.refcnt + |h.free[b]| == PAGE_SIZE / d.size
  }

  predicate PageOk(h: Heap, p: nat) {
    p in h.bucketOf && IsBucket(h, h.bucketOf[p]) && h.desc[h.bucketOf[p]].page == p && p !in h.descPages
  }

  ghost predicate Sound(h: Heap) {
    Lists(h) && Buckets(h) && Pages(h)
  }

  ghost predicate Buckets(h: Heap) {
    forall b {:trigger IsBucket(h, b)} | IsBucket(h, b) :: BucketOk(h, b)
  }

  ghost predicate Pages(h: Heap) {
    forall p {:trigger PageOk(h, p)} | p in h.bucketOf :: PageOk(h, p)
  }

  /** Between calls every bucket has an object in use. */
  ghost predicate InUse(h: Heap) {
    forall b | IsBucket(h, b) :: h.desc[b].refcnt > 0
  }

  /** The object at `a` is allocated. */
  predicate Live(h: Heap, a: nat) {
    var p := PageOf(a);
    && p in h.bucketOf && h.bucketOf[p] in h.desc && h.bucketOf[p] in h.free
    && IsObject(p, h.desc[h.bucketOf[p]].size, a) && a !in h.free[h.bucketOf[p]]
  }

  function LiveSize(h: Heap, a: nat): nat
    requires Live(h, a)
  {
    h.desc[h.bucketOf[PageOf(a)]].size
  }

  predicate Inside(h: Heap, a: nat, x: nat)
    requires Live(h, a)
  {
    a <= x < a + LiveSize(h, a)
  }

  /** Live objects do not overlap. */
  lemma LiveApart(h: Heap, a: nat, b: nat, x: nat)
    requires Sound(h) && Live(h, a) && Live(h, b) && Inside(h, a, x) && Inside(h, b, x)
    ensures a == b
  {
    InsidePage(h, a, x);
    InsidePage(h, b, x);
    hide Sound, PageOf;
    if a < b {
      ObjectsApart(PageOf(a), LiveSize(h, a), a, b);
    } else if b < a {
      ObjectsApart(PageOf(a), LiveSize(h, a), b, a);
    }
  }

  lemma InsidePage(h: Heap, a: nat, x: nat)
    requires Live(h, a) && Inside(h, a, x)
    ensures PageOf(x) == PageOf(a)
  {
    assert PageOf(a) % PAGE_SIZE == 0;
    PageRange(PageOf(a), x);
  }

  /** No word of a free chain lies in a live object: users cannot damage the chains. */
  lemma UserApart(h: Heap, b: nat, a: nat, x: nat, f: nat)
    requires Sound(h) && IsBucket(h, b) && f in h.free[b] && b in h.free && Live(h, a) && Inside(h, a, x)
    ensures x != f
  {
    hide Lists;
    var d := h.desc[b];
    assert BucketOk(h, b);
    FreeIsObject(h, b, f);
    if x == f {
      InsidePage(h, a, x);
      ObjectPage(d.page, d.size, f);
      hide PageOf;
      if a < f { ObjectsApart(PageOf(a), d.size, a, f); }
    }
  }

  lemma FreeIsObject(h: Heap, b: nat, f: nat)
    requires IsBucket(h, b) && BucketOk(h, b) && f in h.free[b]
    ensures IsObject(h.desc[b].page, h.desc[b].size, f) && h.desc[b].page in h.bucketOf
            && h.bucketOf[h.desc[b].page] == b
    ensures h.desc[b].page % PAGE_SIZE == 0
  {
  }

  // ---------------------------------------------------------------- steps

  /** malloc takes the first free object of a bucket. */
  function Take(h: Heap, b: nat): Heap
    requires b in h.desc && b in h.free && h.free[b] != []
  {
    var d := h.desc[b];
    h.(desc := h.desc[b := d.(freeptr := Word(h.mem, d.freeptr), refcnt := d.refcnt + 1)],
      free := h.free[b := h.free[b][1..]])
  }

  /** The lists depend on the links only. */
  lemma ListsSame(h: Heap, h': Heap)
    requires Lists(h) && h'.heads == h.heads && h'.lists == h.lists && h'.home == h.home && h'.descPages == h.descPages
    requires h'.desc.Keys == h.desc.Keys && forall b | b in h.desc :: h'.desc[b].next == h.desc[b].next
    ensures Lists(h')
  {
    hide Chained, PageOf;
    forall i {:trigger h'.lists[i]} | 0 <= i < 10 ensures Chained(h'.desc, h'.heads[i], h'.lists[i]) {
      OnFacts(h, i);
      ChainedSame(h.desc, h'.desc, h.heads[i], h.lists[i]);
    }
    assert Homes(h') by {
      assert forall i, b :: On(h', i, b) == On(h, i, b);
    }
  }

  lemma OnFacts(h: Heap, i: nat)
    requires Lists(h) && i < 10
    ensures Chained(h.desc, h.heads[i], h.lists[i]) && Distinct(h.lists[i]) && h.heads[i] == Nth(h.lists[i], 0)
    ensures forall b | b in h.lists[i] :: b in h.desc && b != 0 && b in h.home && h.home[b] == i
  {
    assert Chained(h.desc, h.heads[i], h.lists[i]);
    forall b | b in h.lists[i] ensures b in h.home && h.home[b] == i { assert On(h, i, b); }
  }

  /** What holds of a bucket after a step that leaves it alone. */
  lemma BucketSame(h: Heap, h': Heap, b: nat)
    requires IsBucket(h, b) && BucketOk(h, b) && IsBucket(h', b) && h'.home[b] == h.home[b]
             && h'.desc[b].freeptr == h.desc[b].freeptr
    requires h'.desc[b].page == h.desc[b].page && h'.desc[b].refcnt == h.desc[b].refcnt
             && h'.desc[b].size == h.desc[b].size
    requires b in h.free && b in h'.free && h'.free[b] == h.free[b]
    requires h.desc[b].page in h'.bucketOf && h'.bucketOf[h.desc[b].page] == b
    requires forall a | a in h.free[b] :: Word(h'.mem, a) == Word(h.mem, a)
    ensures BucketOk(h', b)
  {
  }

  /** A step that rearranges the free chain of one bucket. */
  lemma OneBucket(h: Heap, h': Heap, b: nat)
    requires Sound(h) && IsBucket(h, b)
    requires h'.heads == h.heads && h'.lists == h.lists && h'.home == h.home && h'.descPages == h.descPages
             && h'.bucketOf == h.bucketOf
    requires h'.desc.Keys == h.desc.Keys && h'.free.Keys == h.free.Keys
    requires forall c | c in h.desc :: h'.desc[c].next == h.desc[c].next && h'.desc[c].page == h.desc[c].page
    requires forall c | c in h.desc && c != b :: h'.desc[c] == h.desc[c]
    requires forall c | c in h.free && c != b :: h'.free[c] == h.free[c]
    requires forall c, f | IsBucket(h, c) && c != b && c in h.free && f in h.free[c] ::
               Word(h'.mem, f) == Word(h.mem, f)
    requires BucketOk(h', b)
    ensures Sound(h')
  {
    hide FreeChain, Word, IsObject, Lists;
    ListsSame(h, h');
    forall c | IsBucket(h', c) ensures BucketOk(h', c) {
      assert IsBucket(h, c) && BucketOk(h, c);
      if c != b { BucketSame(h, h', c); }
    }
    forall p | p in h'.bucketOf ensures PageOk(h', p) { assert PageOk(h, p); }
  }

  lemma TakeKeeps(h: Heap, b: nat)
    requires Sound(h) && IsBucket(h, b) && b in h.free && h.free[b] != []
    ensures Sound(Take(h, b)) && h.desc[b].freeptr == h.free[b][0] && !Live(h, h.free[b][0])
    ensures forall a :: Live(Take(h, b), a) <==> Live(h, a) || a == h.free[b][0]
    ensures Live(Take(h, b), h.free[b][0]) && LiveSize(Take(h, b), h.free[b][0]) == SizeAt(h.home[b])
    ensures forall a | Live(h, a) :: LiveSize(Take(h, b), a) == LiveSize(h, a)
  {
    assert BucketOk(h, b);
    var d := h.desc[b];
    FreeChainPop(h.mem, d.freeptr, h.free[b], d.page, d.size);
    TakeSound(h, b);
    FreeIsObject(h, b, h.free[b][0]);
    ObjectPage(d.page, d.size, h.free[b][0]);
    hide FreeChain, Word, IsObject, PageOf;
    forall a ensures Live(Take(h, b), a) <==> Live(h, a) || a == h.free[b][0] { TakeLive(h, b, a); }
  }

  lemma TakeLive(h: Heap, b: nat, a: nat)
    requires Sound(h) && IsBucket(h, b) && BucketOk(h, b) && h.free[b] != [] && h.free[b][0] !in h.free[b][1..]
    requires PageOf(h.free[b][0]) == h.desc[b].page && IsObject(h.desc[b].page, h.desc[b].size, h.free[b][0])
    ensures Live(Take(h, b), a) <==> Live(h, a) || a == h.free[b][0]
  {
    hide FreeChain, Word, IsObject, PageOf, Lists;
    assert h.free[b] == [h.free[b][0]] + h.free[b][1..];
    assert PageOf(a) in h.bucketOf ==> PageOk(h, PageOf(a));
  }

  lemma TakeSound(h: Heap, b: nat)
    requires Sound(h) && IsBucket(h, b) && b in h.free && h.free[b] != []
    ensures Sound(Take(h, b))
  {
    assert BucketOk(h, b);
    var h', d := Take(h, b), h.desc[b];
    FreeChainPop(h.mem, d.freeptr, h.free[b], d.page, d.size);
    hide FreeChain, Word, IsObject, Sound;
    assert BucketOk(h', b);
    hide BucketOk;
    OneBucket(h, h', b);
  }

  /** free_s puts an object back at the front of the free chain of its bucket. */
  function Give(h: Heap, b: nat, a: nat): Heap
    requires b in h.desc && b in h.free && h.desc[b].refcnt > 0
  {
    var d := h.desc[b];
    h.(mem := h.mem[a := d.freeptr], desc := h.desc[b := d.(freeptr := a, refcnt := d.refcnt - 1)],
       free := h.free[b := [a] + h.free[b]])
  }

  lemma LiveBucket(h: Heap, a: nat)
    requires Sound(h) && Live(h, a)
    ensures var b := h.bucketOf[PageOf(a)];
            IsBucket(h, b) && BucketOk(h, b) && h.desc[b].page == PageOf(a) && b in h.free && a !in h.free[b]
            && IsObject(h.desc[b].page, h.desc[b].size, a)
  {
    hide Lists, BucketOk, IsObject;
    assert PageOk(h, PageOf(a));
    assert IsBucket(h, h.bucketOf[PageOf(a)]);
  }

  lemma GiveKeeps(h: Heap, a: nat)
    requires Sound(h) && InUse(h) && Live(h, a)
    ensures var b := h.bucketOf[PageOf(a)];
            IsBucket(h, b) && b in h.free && h.desc[b].refcnt > 0 && Sound(Give(h, b, a))
            && forall x :: Live(Give(h, b, a), x) <==> Live(h, x) && x != a
    ensures forall x | Live(h, x) && x != a :: LiveSize(Give(h, h.bucketOf[PageOf(a)], a), x) == LiveSize(h, x)
  {
    LiveBucket(h, a);
    var b := h.bucketOf[PageOf(a)];
    assert BucketOk(h, b);
    hide BucketOk, Sound, IsObject, PageOf;
    GiveSound(h, b, a);
    forall x ensures Live(Give(h, b, a), x) <==> Live(h, x) && x != a { GiveLive(h, b, a, x); }
  }

  lemma GiveLive(h: Heap, b: nat, a: nat, x: nat)
    requires Sound(h) && Live(h, a) && b == h.bucketOf[PageOf(a)] && h.desc[b].refcnt > 0
    ensures Live(Give(h, b, a), x) <==> Live(h, x) && x != a
  {
    hide FreeChain, Word, IsObject, PageOf, Lists, BucketOk;
    assert PageOf(x) in h.bucketOf ==> PageOk(h, PageOf(x));
    assert PageOk(h, PageOf(a));
    forall y ensures y in [a] + h.free[b] <==> y == a || y in h.free[b] {}
  }

  lemma GiveSound(h: Heap, b: nat, a: nat)
    requires Sound(h) && Live(h, a) && b == h.bucketOf[PageOf(a)] && h.desc[b].refcnt > 0
    ensures Sound(Give(h, b, a))
  {
    LiveBucket(h, a);
    GiveBucket(h, b, a);
    assert Inside(h, a, a);
    hide FreeChain, Inside, PageOf, IsObject, Sound, Live, BucketOk, Word;
    forall c, f | IsBucket(h, c) && c != b && c in h.free && f in h.free[c]
      ensures Word(Give(h, b, a).mem, f) == Word(h.mem, f) {
      UserApart(h, c, a, a, f);
      OtherWord(h.mem, a, h.desc[b].freeptr, f);
    }
    hide IsBucket;
    OneBucket(h, Give(h, b, a), b);
  }

  lemma OtherWord(mem: map<nat, nat>, a: nat, w: nat, f: nat)
    requires f != a
    ensures Word(mem[a := w], f) == Word(mem, f)
  {
  }

  lemma GiveBucket(h: Heap, b: nat, a: nat)
    requires IsBucket(h, b) && b in h.free && h.desc[b].refcnt > 0 && BucketOk(h, b) && a !in h.free[b]
    requires IsObject(h.desc[b].page, h.desc[b].size, a)
    ensures BucketOk(Give(h, b, a), b)
  {
    var d := h.desc[b];
    FreeChainPush(h.mem, d.freeptr, h.free[b], d.page, d.size, a);
    hide FreeChain, IsObject;
  }

  // ---------------------------------------------------------------- full and empty buckets

  /** The objects of a page, lowest first. */
  function Objects(page: nat, size: nat): (list: seq<nat>)
    requires IsSize(size)
    ensures |list| == PAGE_SIZE / size
  {
    seq(PAGE_SIZE / size, j requires 0 <= j < PAGE_SIZE / size => page + j * size)
  }

  lemma ObjectsFacts(page: nat, size: nat)
    requires IsSize(size)
    ensures Distinct(Objects(page, size)) && forall a :: a in Objects(page, size) <==> IsObject(page, size, a)
  {
    var list := Objects(page, size);
    forall i, j | 0 <= i < j < |list| ensures list[i] != list[j] { assert i * size < j * size; }
    forall j | 0 <= j < |list| ensures IsObject(page, size, list[j]) { ObjectAt(page, size, j); }
    forall a: nat | IsObject(page, size, a) ensures a in list {
      ObjectIndex(page, size, a);
      assert list[(a - page) / size] == a;
    }
  }

  lemma ObjectAt(page: nat, size: nat, j: nat)
    requires IsSize(size) && j < PAGE_SIZE / size
    ensures IsObject(page, size, page + j * size)
  {
    assert PAGE_SIZE / size * size == PAGE_SIZE;
    assert j * size + size == (j + 1) * size;
    assert (j + 1) * size <= PAGE_SIZE / size * size;
    MulMod(j, size);
  }

  lemma MulMod(j: nat, size: nat)
    requires IsSize(size)
    ensures (j * size) % size == 0
  {
    if size == 16 {} else if size == 32 {} else if size == 64 {} else if size == 128 {} else if size == 256 {}
    else if size == 512 {} else if size == 1024 {} else if size == 2048 {}
  }

  lemma ObjectIndex(page: nat, size: nat, a: nat)
    requires IsObject(page, size, a)
    ensures 0 <= (a - page) / size < PAGE_SIZE / size && page + (a - page) / size * size == a
  {
    if size == 16 {} else if size == 32 {} else if size == 64 {} else if size == 128 {} else if size == 256 {}
    else if size == 512 {} else if size == 1024 {} else if size == 2048 {}
  }

  lemma {:induction false} ListFits(list: seq<nat>, s: set<nat>)
    requires Distinct(list) && forall x | x in list :: x in s
    ensures |list| <= |s|
  {
    if list != [] {
      assert forall x | x in list[1..] :: x in list && x != list[0] by {
        forall x | x in list[1..] ensures x != list[0]
        {
          var i :| 0 <= i < |list[1..]| && list[1..][i] == x;
          assert list[i + 1] == x;
        }
      }
      ListFits(list[1..], s - {list[0]});
    }
  }

  function Elems(list: seq<nat>): (r: set<nat>)
    ensures |r| <= |list| && forall x :: x in r <==> x in list
  {
    if list == [] then {} else
      assert forall x :: x in list <==> x == list[0] || x in list[1..];
      {list[0]} + Elems(list[1..])
  }

  lemma SomeOutside(objects: seq<nat>, free: seq<nat>)
    requires Distinct(objects) && |free| < |objects|
    ensures exists a :: a in objects && a !in free
  {
    if forall a | a in objects :: a in free {
      ListFits(objects, Elems(free));
    }
  }

  lemma AllInside(objects: seq<nat>, free: seq<nat>, a: nat)
    requires Distinct(free) && |free| == |objects| && (forall x | x in free :: x in objects) && a in objects
    ensures a in free
  {
    if a !in free {
      ListFits(free, Elems(objects) - {a});
      assert false;
    }
  }

  /** The count of a bucket is zero exactly when none of its objects is live. */
  lemma EmptyBucket(h: Heap, b: nat)
    requires Sound(h) && IsBucket(h, b)
    ensures h.desc[b].refcnt == 0 <==> forall a | PageOf(a) == h.desc[b].page :: !Live(h, a)
  {
    assert BucketOk(h, b);
    var d := h.desc[b];
    var list := Objects(d.page, d.size);
    ObjectsFacts(d.page, d.size);
    hide IsObject, PageOf, Objects, Lists, Sound;
    if d.refcnt == 0 {
      forall a | PageOf(a) == d.page ensures !Live(h, a) {
        if a in list { AllInside(list, h.free[b], a); }
      }
    } else {
      SomeOutside(list, h.free[b]);
      var a :| a in list && a !in h.free[b];
      ObjectPage(d.page, d.size, a);
      SamePage(a);
      assert Live(h, a);
    }
  }

  lemma SamePage(a: nat)
    ensures PageOf(a) == a - a % PAGE_SIZE
  {
  }

  // ---------------------------------------------------------------- buckets come and go

  /** free_s returns the page of an empty bucket; its descriptor becomes a spare one. */
  function Drop(h: Heap, i: nat, j: nat): Heap
    requires CanDrop(h, i, j)
  {
    var b := h.lists[i][j];
    var d := h.desc[b];
    var desc1 := if j == 0 then h.desc else h.desc[h.lists[i][j - 1] := h.desc[h.lists[i][j - 1]].(next := d.next)];
    h.(desc := desc1[b := d.(next := h.heads[SPARE])],
       heads := (if j == 0 then h.heads[i := d.next] else h.heads)[SPARE := b],
       lists := h.lists[i := Without(h.lists[i], j)][SPARE := [b] + h.lists[SPARE]],
       home := h.home[b := SPARE], bucketOf := h.bucketOf - {d.page})
  }

  predicate CanDrop(h: Heap, i: nat, j: nat) {
    && i < 9 && |h.heads| == |h.lists| == 10 && j < |h.lists[i]| && h.lists[i][j] in h.desc
    && (j > 0 ==> h.lists[i][j - 1] in h.desc && h.lists[i][j - 1] != h.lists[i][j])
  }

  lemma DropFields(h: Heap, i: nat, j: nat)
    requires CanDrop(h, i, j)
    ensures var h', b := Drop(h, i, j), h.lists[i][j];
            && h'.desc.Keys == h.desc.Keys && h'.free == h.free && h'.mem == h.mem && h'.descPages == h.descPages
            && h'.home == h.home[b := SPARE] && h'.bucketOf == h.bucketOf - {h.desc[b].page}
            && (forall x | x in h.desc :: SameButNext(h.desc[x], h'.desc[x]))
            && (forall x | x in h.desc && x != b && (j == 0 || x != h.lists[i][j - 1]) :: h'.desc[x] == h.desc[x])
            && h'.lists == h.lists[i := Without(h.lists[i], j)][SPARE := [b] + h.lists[SPARE]]
            && h'.heads == (if j == 0 then h.heads[i := h.desc[b].next] else h.heads)[SPARE := b]
            && h'.desc[b].next == h.heads[SPARE] && (j > 0 ==> h'.desc[h.lists[i][j - 1]].next == h.desc[b].next)
  {
  }

  predicate SameButNext(d: Desc, d': Desc) {
    d' == d.(next := d'.next)
  }

  /** A descriptor has moved from one list to another. */
  lemma HomesMoved(h: Heap, h': Heap, b: nat, n: nat)
    requires Homes(h) && b in h.desc && n < 10 && h'.desc.Keys == h.desc.Keys && h'.descPages == h.descPages
    requires h'.home == h.home[b := n] && forall i, x {:trigger On(h', i, x)} :: On(h', i, x) <==>
               if x == b then i == n else On(h, i, x)
    ensures Homes(h')
  {
    hide On, PageOf;
  }

  lemma DropOn(h: Heap, i: nat, j: nat, n: nat, x: nat)
    requires CanDrop(h, i, j) && Lists(h)
    ensures On(Drop(h, i, j), n, x) <==> if x == h.lists[i][j] then n == SPARE else On(h, n, x)
  {
    CanDropAt(h, i, j);
    OnFacts(h, i);
    WithoutDistinct(h.lists[i], j);
    assert On(h, n, h.lists[i][j]) ==> n == i;
    hide Lists, PageOf, Chained;
  }

  lemma CanDropAt(h: Heap, i: nat, j: nat)
    requires Lists(h) && i < 9 && j < |h.lists[i]|
    ensures CanDrop(h, i, j) && On(h, i, h.lists[i][j]) && h.lists[i][j] in h.home && h.home[h.lists[i][j]] == i
    ensures h.heads[i] == h.lists[i][0] && (h.lists[i][j] == h.heads[i] ==> j == 0)
  {
    OnFacts(h, i);
    assert h.lists[i][j] in h.lists[i] && (j > 0 ==> h.lists[i][j - 1] in h.lists[i]);
  }

  lemma DropChain(h: Heap, i: nat, j: nat, n: nat)
    requires Lists(h) && CanDrop(h, i, j) && n < 10
    ensures Chained(Drop(h, i, j).desc, Drop(h, i, j).heads[n], Drop(h, i, j).lists[n])
  {
    hide Chained, Lists, Distinct, Without;
    var h', b := Drop(h, i, j), h.lists[i][j];
    DropFields(h, i, j);
    OnFacts(h, i);
    OnFacts(h, n);
    OnFacts(h, SPARE);
    assert b in h.lists[i] && (j > 0 ==> h.lists[i][j - 1] in h.lists[i]);
    hide Drop, CanDrop;
    if n == i {
      ChainedDrop(h.desc, h'.desc, h.heads[i], h.lists[i], j);
    } else if n == SPARE {
      ChainedPush(h.desc, h'.desc, h.heads[SPARE], h.lists[SPARE], b);
    } else {
      ChainedSame(h.desc, h'.desc, h.heads[n], h.lists[n]);
    }
  }

  lemma DropLists(h: Heap, i: nat, j: nat)
    requires Lists(h) && CanDrop(h, i, j)
    ensures Lists(Drop(h, i, j))
  {
    DropHomes(h, i, j);
    hide Lists, Homes, Chained, CanDrop;
    forall n | 0 <= n < 10 ensures Chained(Drop(h, i, j).desc, Drop(h, i, j).heads[n], Drop(h, i, j).lists[n])
    {
      DropChain(h, i, j, n);
    }
  }

  lemma DropHomes(h: Heap, i: nat, j: nat)
    requires Lists(h) && CanDrop(h, i, j)
    ensures Homes(Drop(h, i, j)) && |Drop(h, i, j).heads| == |Drop(h, i, j).lists| == 10
  {
    var h', b := Drop(h, i, j), h.lists[i][j];
    assert |h'.heads| == |h'.lists| == 10;
    DropFields(h, i, j);
    hide Chains, Drop, On, CanDrop, Homes;
    forall n, x ensures On(h', n, x) <==> if x == b then n == SPARE else On(h, n, x) { DropOn(h, i, j, n, x); }
    HomesMoved(h, h', b, SPARE);
  }

  // ---------------------------------------------------------------- soundness from parts

  predicate SameBucket(h: Heap, h': Heap, c: nat) {
    && IsBucket(h, c) && IsBucket(h', c) && h'.home[c] == h.home[c] && SameButNext(h.desc[c], h'.desc[c])
    && c in h.free && c in h'.free && h'.free[c] == h.free[c]
    && h.desc[c].page in h'.bucketOf && h'.bucketOf[h.desc[c].page] == c
    && forall a | a in h.free[c] :: Word(h'.mem, a) == Word(h.mem, a)
  }

  lemma SoundFrom(h: Heap, h': Heap)
    requires Sound(h) && Lists(h') && Pages(h')
    requires forall c | IsBucket(h', c) :: SameBucket(h, h', c) || BucketOk(h', c)
    ensures Sound(h')
  {
    hide Lists, Pages, FreeChain, Word;
    forall c | IsBucket(h', c) ensures BucketOk(h', c) {
      if SameBucket(h, h', c) {
        assert IsBucket(h, c);
        assert BucketOk(h, c);
        BucketSame(h, h', c);
      }
    }
  }

  lemma BucketFacts(h: Heap, c: nat)
    requires Sound(h) && IsBucket(h, c)
    ensures c in h.free && h.desc[c].page in h.bucketOf && h.bucketOf[h.desc[c].page] == c
            && h.desc[c].size == SizeAt(h.home[c])
    ensures h.desc[c].refcnt + |h.free[c]| == PAGE_SIZE / h.desc[c].size
  {
  }

  lemma DropSame(h: Heap, i: nat, j: nat, c: nat)
    requires Sound(h) && CanDrop(h, i, j) && IsBucket(Drop(h, i, j), c)
    ensures SameBucket(h, Drop(h, i, j), c)
  {
    DropFields(h, i, j);
    CanDropAt(h, i, j);
    hide Drop, CanDrop, Word, Lists;
    assert IsBucket(h, c) && c != h.lists[i][j];
    BucketFacts(h, c);
    BucketFacts(h, h.lists[i][j]);
    hide Sound;
  }

  lemma DropPages(h: Heap, i: nat, j: nat)
    requires Pages(h) && CanDrop(h, i, j)
    ensures Pages(Drop(h, i, j))
  {
    DropFields(h, i, j);
    hide Drop, CanDrop;
    forall p | p in Drop(h, i, j).bucketOf ensures PageOk(Drop(h, i, j), p) { assert PageOk(h, p); }
  }

  lemma DropSound(h: Heap, i: nat, j: nat)
    requires Sound(h) && CanDrop(h, i, j)
    ensures Sound(Drop(h, i, j))
  {
    DropLists(h, i, j);
    DropPages(h, i, j);
    forall c | IsBucket(Drop(h, i, j), c) ensures SameBucket(h, Drop(h, i, j), c) { DropSame(h, i, j, c); }
    hide Sound, Drop, CanDrop, SameBucket, Lists, Pages;
    SoundFrom(h, Drop(h, i, j));
  }

  lemma DropLive(h: Heap, i: nat, j: nat, a: nat)
    requires Sound(h) && CanDrop(h, i, j) && (PageOf(a) == h.desc[h.lists[i][j]].page ==> !Live(h, a))
    ensures Live(Drop(h, i, j), a) <==> Live(h, a)
    ensures Live(h, a) ==> LiveSize(Drop(h, i, j), a) == LiveSize(h, a)
  {
    DropFields(h, i, j);
    hide Drop, CanDrop, Lists, Buckets, IsObject, PageOf;
    assert PageOf(a) in h.bucketOf ==> PageOk(h, PageOf(a));
  }

  lemma DropKeeps(h: Heap, i: nat, j: nat)
    requires Sound(h) && CanDrop(h, i, j) && h.desc[h.lists[i][j]].refcnt == 0
    ensures Sound(Drop(h, i, j)) && forall a :: Live(Drop(h, i, j), a) <==> Live(h, a)
    ensures forall a | Live(h, a) :: LiveSize(Drop(h, i, j), a) == LiveSize(h, a)
  {
    CanDropAt(h, i, j);
    assert IsBucket(h, h.lists[i][j]);
    DropSound(h, i, j);
    EmptyBucket(h, h.lists[i][j]);
    hide Sound, Drop, CanDrop, Live, PageOf;
    forall a ensures Live(Drop(h, i, j), a) <==> Live(h, a) { DropLive(h, i, j, a); }
    forall a | Live(h, a) ensures LiveSize(Drop(h, i, j), a) == LiveSize(h, a) { DropLive(h, i, j, a); }
  }

  /** The page of a new bucket, cut into a chain of free objects. */
  predicate Threaded(mem: map<nat, nat>, page: nat, size: nat)
    requires IsSize(size)
  {
    forall k {:trigger Word(mem, Objects(page, size)[k])} | 0 <= k < PAGE_SIZE / size ::
           Word(mem, Objects(page, size)[k]) == Nth(Objects(page, size), k + 1)
  }

  /** malloc takes a spare descriptor and a page for a new bucket. */
  function NewBucket(h: Heap, i: nat, page: nat, mem: map<nat, nat>): Heap
    requires i < 9 && |h.heads| == |h.lists| == 10 && h.lists[SPARE] != [] && h.lists[SPARE][0] in h.desc
  {
    var b := h.lists[SPARE][0];
    h.(desc := h.desc[b := Desc(page, h.heads[i], page, 0, SizeAt(i))],
       heads := h.heads[SPARE := h.desc[b].next][i := b],
       lists := h.lists[SPARE := h.lists[SPARE][1..]][i := [b] + h.lists[i]],
       home := h.home[b := i], mem := mem, free := h.free[b := Objects(page, SizeAt(i))],
         bucketOf := h.bucketOf[page := b])
  }

  lemma NewBucketFields(h: Heap, i: nat, page: nat, mem: map<nat, nat>)
    requires i < 9 && |h.heads| == |h.lists| == 10 && h.lists[SPARE] != [] && h.lists[SPARE][0] in h.desc
    ensures var h', b := NewBucket(h, i, page, mem), h.lists[SPARE][0];
            && h'.desc.Keys == h.desc.Keys && h'.mem == mem && h'.descPages == h.descPages
            && h'.home == h.home[b := i] && h'.bucketOf == h.bucketOf[page := b]
               && h'.free == h.free[b := Objects(page, SizeAt(i))]
            && (forall x | x in h.desc && x != b :: h'.desc[x] == h.desc[x])
            && h'.desc[b] == Desc(page, h.heads[i], page, 0, SizeAt(i))
            && h'.heads == h.heads[SPARE := h.desc[b].next][i := b]
            && (forall n | 0 <= n < 10 && n != i && n != SPARE :: h'.lists[n] == h.lists[n])
            && h'.lists[i] == [b] + h.lists[i] && h'.lists[SPARE] == h.lists[SPARE][1..] && |h'.lists| == 10
  {
  }

  lemma SpareFront(h: Heap)
    requires Lists(h) && h.lists[SPARE] != []
    ensures var b, list := h.lists[SPARE][0], h.lists[SPARE];
            && b in h.desc && b in h.home && h.home[b] == SPARE && b == h.heads[SPARE] && b != 0
            && Chained(h.desc, h.desc[b].next, list[1..]) && forall x :: x in list[1..] <==> x in list && x != b
  {
    var list := h.lists[SPARE];
    OnFacts(h, SPARE);
    assert list[0] in list;
    ChainedPop(h.desc, h.heads[SPARE], list);
    WithoutDistinct(list, 0);
    assert Without(list, 0) == list[1..];
    hide Chained, Lists, Distinct, Without;
  }

  lemma NewBucketChain(h: Heap, i: nat, page: nat, mem: map<nat, nat>, n: nat)
    requires Lists(h) && i < 9 && h.lists[SPARE] != [] && h.lists[SPARE][0] in h.desc && n < 10
    ensures var h' := NewBucket(h, i, page, mem); Chained(h'.desc, h'.heads[n], h'.lists[n])
  {
    SpareFront(h);
    OnFacts(h, i);
    OnFacts(h, n);
    NewBucketFields(h, i, page, mem);
    hide Chained, PageOf, Objects, NewBucket, Distinct, Lists;
    var h', b := NewBucket(h, i, page, mem), h.lists[SPARE][0];
    if n == i {
      ChainedPush(h.desc, h'.desc, h.heads[i], h.lists[i], b);
    } else if n == SPARE {
      ChainedSame(h.desc, h'.desc, h.desc[b].next, h.lists[SPARE][1..]);
    } else {
      ChainedSame(h.desc, h'.desc, h.heads[n], h.lists[n]);
    }
  }

  lemma NewBucketOn(h: Heap, i: nat, page: nat, mem: map<nat, nat>, n: nat, x: nat)
    requires Lists(h) && i < 9 && h.lists[SPARE] != [] && h.lists[SPARE][0] in h.desc
    ensures On(NewBucket(h, i, page, mem), n, x) <==> if x == h.lists[SPARE][0] then n == i else On(h, n, x)
  {
    SpareFront(h);
    NewBucketFields(h, i, page, mem);
    assert On(h, n, h.lists[SPARE][0]) ==> n == SPARE;
    hide Chained, PageOf, Objects, NewBucket, Lists;
  }

  lemma NewBucketHomes(h: Heap, i: nat, page: nat, mem: map<nat, nat>)
    requires Lists(h) && i < 9 && h.lists[SPARE] != [] && h.lists[SPARE][0] in h.desc
    ensures Homes(NewBucket(h, i, page, mem))
  {
    NewBucketFields(h, i, page, mem);
    hide Chains, Objects, NewBucket, On, Homes;
    var h', b := NewBucket(h, i, page, mem), h.lists[SPARE][0];
    forall n, x ensures On(h', n, x) <==> if x == b then n == i else On(h, n, x) { NewBucketOn(h, i, page, mem, n, x); }
    HomesMoved(h, h', b, i);
  }

  lemma NewBucketLists(h: Heap, i: nat, page: nat, mem: map<nat, nat>)
    requires Lists(h) && i < 9 && h.lists[SPARE] != []
    ensures h.lists[SPARE][0] in h.desc && h.lists[SPARE][0] in h.home && h.home[h.lists[SPARE][0]] == SPARE
    ensures Lists(NewBucket(h, i, page, mem))
  {
    SpareFront(h);
    NewBucketHomes(h, i, page, mem);
    var h' := NewBucket(h, i, page, mem);
    assert |h'.heads| == |h'.lists| == 10;
    hide Chained, Homes, NewBucket, Lists;
    forall n | 0 <= n < 10 ensures Chained(h'.desc, h'.heads[n], h'.lists[n]) { NewBucketChain(h, i, page, mem, n); }
  }

  ghost predicate FreshPage(h: Heap, page: nat) {
    page != 0 && page % PAGE_SIZE == 0 && page !in h.bucketOf && page !in h.descPages
  }

  lemma NewBucketSame(h: Heap, i: nat, page: nat, mem: map<nat, nat>, c: nat)
    requires Sound(h) && i < 9 && h.lists[SPARE] != [] && h.lists[SPARE][0] in h.desc && FreshPage(h, page)
    requires forall x | PageOf(x) != page :: Word(mem, x) == Word(h.mem, x)
    requires IsBucket(NewBucket(h, i, page, mem), c) && c != h.lists[SPARE][0]
    ensures SameBucket(h, NewBucket(h, i, page, mem), c)
  {
    hide Sound, NewBucket, Word, Objects, PageOf, BucketOk;
    SoundLists(h);
    NewBucketFields(h, i, page, mem);
    assert IsBucket(h, c);
    BucketFacts(h, c);
    NewBucketWords(h, page, mem, c);
  }

  lemma SoundLists(h: Heap)
    requires Sound(h)
    ensures |h.heads| == |h.lists| == 10
  {
  }

  lemma NewBucketWords(h: Heap, page: nat, mem: map<nat, nat>, c: nat)
    requires Sound(h) && FreshPage(h, page) && IsBucket(h, c) && c in h.free
    requires forall x | PageOf(x) != page :: Word(mem, x) == Word(h.mem, x)
    ensures forall f | f in h.free[c] :: Word(mem, f) == Word(h.mem, f)
  {
    hide Sound, Word, PageOf;
    forall f | f in h.free[c] ensures Word(mem, f) == Word(h.mem, f) { FreePage(h, c, f); }
  }

  lemma NewBucketOk(h: Heap, i: nat, page: nat, mem: map<nat, nat>)
    requires i < 9 && |h.heads| == |h.lists| == 10 && h.lists[SPARE] != [] && h.lists[SPARE][0] in h.desc
             && FreshPage(h, page)
    requires Threaded(mem, page, SizeAt(i))
    ensures IsBucket(NewBucket(h, i, page, mem), h.lists[SPARE][0])
            && BucketOk(NewBucket(h, i, page, mem), h.lists[SPARE][0])
  {
    NewBucketFields(h, i, page, mem);
    NewChain(mem, page, SizeAt(i));
    hide NewBucket, FreeChain, Objects, Threaded;
  }

  lemma NewBucketPages(h: Heap, i: nat, page: nat, mem: map<nat, nat>)
    requires Pages(h) && i < 9 && |h.heads| == |h.lists| == 10 && h.lists[SPARE] != [] && h.lists[SPARE][0] in h.desc
    requires FreshPage(h, page) && h.lists[SPARE][0] in h.home && h.home[h.lists[SPARE][0]] == SPARE
    ensures Pages(NewBucket(h, i, page, mem))
  {
    NewBucketFields(h, i, page, mem);
    hide NewBucket, Objects;
    forall p | p in NewBucket(h, i, page, mem).bucketOf ensures PageOk(NewBucket(h, i, page, mem), p) {
      assert p != page ==> PageOk(h, p);
    }
  }

  lemma NewBucketSound(h: Heap, i: nat, page: nat, mem: map<nat, nat>)
    requires Sound(h) && i < 9 && h.lists[SPARE] != [] && FreshPage(h, page) && Threaded(mem, page, SizeAt(i))
    requires forall x | PageOf(x) != page :: Word(mem, x) == Word(h.mem, x)
    ensures h.lists[SPARE][0] in h.desc && Sound(NewBucket(h, i, page, mem))
  {
    NewBucketLists(h, i, page, mem);
    NewBucketPages(h, i, page, mem);
    NewBucketOk(h, i, page, mem);
    var h' := NewBucket(h, i, page, mem);
    hide NewBucket, SameBucket, BucketOk, Lists, Pages, Buckets, Threaded;
    forall c | IsBucket(h', c) ensures SameBucket(h, h', c) || BucketOk(h', c) {
      if c != h.lists[SPARE][0] { NewBucketSame(h, i, page, mem, c); }
    }
    SoundFrom(h, h');
  }

  lemma FreePage(h: Heap, c: nat, f: nat)
    requires Sound(h) && IsBucket(h, c) && c in h.free && f in h.free[c]
    ensures PageOf(f) == h.desc[c].page && PageOf(f) in h.bucketOf
  {
    hide Lists, FreeChain;
    assert BucketOk(h, c);
    FreeIsObject(h, c, f);
    ObjectPage(h.desc[c].page, h.desc[c].size, f);
    SamePage(f);
  }

  lemma NewChain(mem: map<nat, nat>, page: nat, size: nat)
    requires IsSize(size) && Threaded(mem, page, size)
    ensures FreeChain(mem, page, Objects(page, size), page, size) && |Objects(page, size)| == PAGE_SIZE / size > 0
  {
    ObjectsFacts(page, size);
    assert PAGE_SIZE / size > 0;
    assert Objects(page, size)[0] == page;
    hide Objects, IsObject, Word;
  }

  lemma NewBucketLive(h: Heap, i: nat, page: nat, mem: map<nat, nat>, a: nat)
    requires Sound(h) && i < 9 && h.lists[SPARE] != [] && FreshPage(h, page)
    requires h.lists[SPARE][0] in h.desc && h.lists[SPARE][0] in h.home && h.home[h.lists[SPARE][0]] == SPARE
    ensures Live(NewBucket(h, i, page, mem), a) <==> Live(h, a)
    ensures Live(h, a) ==> LiveSize(NewBucket(h, i, page, mem), a) == LiveSize(h, a)
  {
    NewBucketFields(h, i, page, mem);
    ObjectsFacts(page, SizeAt(i));
    hide Lists, Buckets, IsObject, PageOf, Objects, NewBucket;
    assert PageOf(a) in h.bucketOf ==> PageOk(h, PageOf(a));
  }

  lemma NewBucketKeeps(h: Heap, i: nat, page: nat, mem: map<nat, nat>)
    requires Sound(h) && i < 9 && h.lists[SPARE] != [] && FreshPage(h, page) && Threaded(mem, page, SizeAt(i))
    requires forall x | PageOf(x) != page :: Word(mem, x) == Word(h.mem, x)
    ensures h.lists[SPARE][0] in h.desc && Sound(NewBucket(h, i, page, mem))
    ensures forall a :: Live(NewBucket(h, i, page, mem), a) <==> Live(h, a)
    ensures forall a | Live(h, a) :: LiveSize(NewBucket(h, i, page, mem), a) == LiveSize(h, a)
  {
    NewBucketSound(h, i, page, mem);
    NewBucketLists(h, i, page, mem);
    hide Sound, Threaded, NewBucket, Live, PageOf, Word, FreshPage;
    forall a ensures Live(NewBucket(h, i, page, mem), a) <==> Live(h, a) { NewBucketLive(h, i, page, mem, a); }
    forall a | Live(h, a) ensures LiveSize(NewBucket(h, i, page, mem), a) == LiveSize(h, a)
    {
      NewBucketLive(h, i, page, mem, a);
    }
  }

  // ---------------------------------------------------------------- a page of descriptors

  function DescList(page: nat): (list: seq<nat>)
    ensures |list| == 256
  {
    seq(256, i => page + 16 * i)
  }

  lemma DescListFacts(page: nat)
    requires page % PAGE_SIZE == 0
    ensures Distinct(DescList(page)) && forall b | b in DescList(page) :: PageOf(b) == page
  {
    forall b | b in DescList(page) ensures PageOf(b) == page {
      assert page <= b < page + PAGE_SIZE;
      hide DescList;
      PageRange(page, b);
    }
    hide PageOf;
  }

  /** The descriptors of a new page go before the spare ones. */
  ghost predicate Stocked(h: Heap, h': Heap, page: nat) {
    && |h.heads| == |h.lists| == 10 && FreshPage(h, page)
    && h'.heads == h.heads[SPARE := page] && h'.lists == h.lists[SPARE := DescList(page) + h.lists[SPARE]]
    && h'.mem == h.mem && h'.free == h.free && h'.bucketOf == h.bucketOf && h'.descPages == h.descPages + {page}
    && (forall b :: b in h'.desc <==> b in h.desc || b in DescList(page)) && h'.home.Keys == h'.desc.Keys
    && (forall b | b in h.desc && b !in DescList(page) ::
         h'.desc[b] == h.desc[b] && b in h.home && h'.home[b] == h.home[b])
    && (forall k {:trigger DescList(page)[k]} | 0 <= k < 256 :: h'.home[DescList(page)[k]] == SPARE
          && h'.desc[DescList(page)[k]].next == if k < 255 then DescList(page)[k + 1] else h.heads[SPARE])
  }

  lemma ChainedAppend(desc: map<nat, Desc>, fresh_: seq<nat>, head: nat, list: seq<nat>, desc0: map<nat, Desc>)
    requires Chained(desc0, head, list) && Distinct(fresh_) && fresh_ != []
    requires forall b | b in fresh_ :: b in desc && b != 0 && b !in list
    requires forall b | b in list :: b in desc && desc[b].next == desc0[b].next
    requires forall k {:trigger fresh_[k]} | 0 <= k < |fresh_| ::
               desc[fresh_[k]].next == if k + 1 < |fresh_| then fresh_[k + 1] else head
    ensures Chained(desc, fresh_[0], fresh_ + list)
  {
  }

  lemma StockChain(h: Heap, h': Heap, page: nat)
    requires Lists(h) && Stocked(h, h', page) && forall b | b in DescList(page) :: b !in h.desc && b != 0
    ensures Chained(h'.desc, page, DescList(page) + h.lists[SPARE])
  {
    DescListFacts(page);
    OnFacts(h, SPARE);
    assert DescList(page)[0] == page;
    hide DescList, PageOf, Lists, Chained, Distinct;
    ChainedAppend(h'.desc, DescList(page), h.heads[SPARE], h.lists[SPARE], h.desc);
  }

  lemma StockFresh(h: Heap, page: nat)
    requires Lists(h) && FreshPage(h, page)
    ensures forall b | b in DescList(page) :: b !in h.desc && b != 0
  {
    DescListFacts(page);
    hide DescList, Chains;
    forall b | b in DescList(page) ensures b !in h.desc && b != 0 { SamePage(b); }
  }

  lemma StockHome(h: Heap, h': Heap, page: nat, b: nat)
    requires Stocked(h, h', page) && b in DescList(page)
    ensures b in h'.desc && b in h'.home && h'.home[b] == SPARE
  {
  }

  lemma StockChains(h: Heap, h': Heap, page: nat)
    requires Lists(h) && Stocked(h, h', page) && forall b | b in DescList(page) :: b !in h.desc && b != 0
    ensures Chains(h')
  {
    StockChain(h, h', page);
    hide DescList, PageOf, Chained, Distinct, Lists;
    forall n {:trigger h'.lists[n]} | 0 <= n < 10 ensures Chained(h'.desc, h'.heads[n], h'.lists[n]) {
      if n != SPARE {
        OnFacts(h, n);
        ChainedSame(h.desc, h'.desc, h.heads[n], h.lists[n]);
      }
    }
  }

  lemma StockOn(h: Heap, h': Heap, page: nat, n: nat, x: nat)
    requires Stocked(h, h', page)
    ensures On(h', n, x) <==> On(h, n, x) || (n == SPARE && x in DescList(page))
  {
  }

  /** New descriptors have come to one list. */
  lemma HomesGrown(h: Heap, h': Heap, more: seq<nat>, n: nat, page: nat)
    requires Homes(h) && n < 10 && h'.descPages == h.descPages + {page} && h'.home.Keys == h'.desc.Keys
    requires forall b :: b in h'.desc <==> b in h.desc || b in more
    requires forall b | b in more :: b in h'.home && h'.home[b] == n && PageOf(b) == page
    requires forall b | b in h.desc :: b !in more && b in h.home && b in h'.home && h'.home[b] == h.home[b]
    requires forall i, x {:trigger On(h', i, x)} :: On(h', i, x) <==> On(h, i, x) || (i == n && x in more)
    ensures Homes(h')
  {
  }

  lemma StockHomes(h: Heap, h': Heap, page: nat)
    requires Lists(h) && Stocked(h, h', page) && forall b | b in DescList(page) :: b !in h.desc && b != 0
    ensures Homes(h')
  {
    hide DescList, PageOf, Lists, Chains, Homes, On;
    DescListFacts(page);
    forall b | b in DescList(page) ensures b in h'.home && h'.home[b] == SPARE { StockHome(h, h', page, b); }
    forall n, x ensures On(h', n, x) <==> On(h, n, x) || (n == SPARE && x in DescList(page))
    {
      StockOn(h, h', page, n, x);
    }
    ListsParts(h);
    assert h'.home.Keys == h'.desc.Keys && h'.descPages == h.descPages + {page};
    HomesGrown(h, h', DescList(page), SPARE, page);
  }

  lemma ListsParts(h: Heap)
    requires Lists(h)
    ensures Chains(h) && Homes(h)
  {
  }

  lemma StockLists(h: Heap, h': Heap, page: nat)
    requires Lists(h) && Stocked(h, h', page)
    ensures Lists(h') && forall b | b in DescList(page) :: b !in h.desc
  {
    hide Chains, Homes, DescList;
    assert FreshPage(h, page);
    hide Stocked;
    StockFresh(h, page);
    StockChains(h, h', page);
    StockHomes(h, h', page);
  }

  /** No bucket is touched. */
  lemma StockBuckets(h: Heap, h': Heap, page: nat, c: nat)
    requires Lists(h) && Stocked(h, h', page)
    ensures IsBucket(h', c) <==> IsBucket(h, c)
    ensures IsBucket(h, c) ==> h'.desc[c] == h.desc[c] && h'.home[c] == h.home[c]
  {
    StockFresh(h, page);
    if c in DescList(page) { StockHome(h, h', page, c); }
    hide DescList;
  }

  lemma StockSame(h: Heap, h': Heap, page: nat, c: nat)
    requires Sound(h) && Stocked(h, h', page) && IsBucket(h', c)
    ensures SameBucket(h, h', c)
  {
    StockBuckets(h, h', page, c);
    BucketFacts(h, c);
    hide Sound, DescList;
  }

  lemma StockPages(h: Heap, h': Heap, page: nat)
    requires Lists(h) && Pages(h) && Stocked(h, h', page)
    ensures Pages(h')
  {
    hide Lists, DescList;
    forall p | p in h'.bucketOf ensures PageOk(h', p) {
      assert PageOk(h, p);
      StockBuckets(h, h', page, h.bucketOf[p]);
    }
  }

  lemma StockSound(h: Heap, h': Heap, page: nat)
    requires Sound(h) && Stocked(h, h', page)
    ensures Sound(h')
  {
    StockLists(h, h', page);
    StockPages(h, h', page);
    hide Stocked, SameBucket, Lists, Pages, Buckets;
    forall c | IsBucket(h', c) ensures SameBucket(h, h', c) { StockSame(h, h', page, c); }
    SoundFrom(h, h');
  }

  lemma StockLive(h: Heap, h': Heap, page: nat, a: nat)
    requires Sound(h) && Stocked(h, h', page)
    ensures Live(h', a) <==> Live(h, a)
    ensures Live(h, a) ==> LiveSize(h', a) == LiveSize(h, a)
  {
    hide DescList, Lists, Buckets, IsObject, PageOf;
    if PageOf(a) in h.bucketOf {
      assert PageOk(h, PageOf(a));
      StockBuckets(h, h', page, h.bucketOf[PageOf(a)]);
    }
  }

  lemma StockKeeps(h: Heap, h': Heap, page: nat)
    requires Sound(h) && Stocked(h, h', page)
    ensures Sound(h') && forall a :: Live(h', a) <==> Live(h, a)
    ensures forall a | Live(h, a) :: LiveSize(h', a) == LiveSize(h, a)
    ensures InUse(h) ==> InUse(h')
  {
    StockSound(h, h', page);
    forall b ensures IsBucket(h', b) <==> IsBucket(h, b) { StockBuckets(h, h', page, b); }
    forall b | IsBucket(h, b) ensures h'.desc[b] == h.desc[b] { StockBuckets(h, h', page, b); }
    hide Sound, Stocked, Live;
    forall a ensures Live(h', a) <==> Live(h, a) { StockLive(h, h', page, a); }
    forall a | Live(h, a) ensures LiveSize(h', a) == LiveSize(h, a) { StockLive(h, h', page, a); }
  }

  // ---------------------------------------------------------------- users

  /** Whatever is written into a live object leaves the heap sound. */
  lemma UserKeeps(h: Heap, a: nat, x: nat, w: nat)
    requires Sound(h) && Live(h, a) && Inside(h, a, x)
    ensures Sound(h.(mem := h.mem[x := w]))
  {
    var h' := h.(mem := h.mem[x := w]);
    ListsSame(h, h');
    hide Lists, Buckets, Word, IsObject, Inside, Live;
    forall c | IsBucket(h', c) ensures SameBucket(h, h', c) {
      assert IsBucket(h, c);
      BucketFacts(h, c);
      forall f | f in h.free[c] ensures Word(h'.mem, f) == Word(h.mem, f) {
        UserApart(h, c, a, x, f);
        OtherWord(h.mem, x, w, f);
      }
    }
    assert Pages(h') by { forall p | p in h'.bucketOf ensures PageOk(h', p) { assert PageOk(h, p); } }
    SoundFrom(h, h');
  }

  // ---------------------------------------------------------------- small facts

  lemma SoundSizes(h: Heap)
    requires Sound(h)
    ensures |h.heads| == |h.lists| == 10 && h.home.Keys == h.desc.Keys
  {
  }

  lemma FreshDescs(h: Heap, page: nat)
    requires Sound(h) && FreshPage(h, page)
    ensures forall b | b in DescList(page) :: b !in h.desc && b != 0
  {
    hide Buckets, Pages, DescList;
    StockFresh(h, page);
  }

  /** One of the first `n` descriptors of a page. */
  predicate InRow(page: nat, b: nat, n: nat) {
    page <= b < page + 16 * n && (b - page) % 16 == 0
  }

  lemma RowGrows(page: nat, n: nat)
    ensures forall b: nat :: InRow(page, b, n + 1) <==> InRow(page, b, n) || b == page + 16 * n
    ensures forall b: nat | InRow(page, b, n) :: b + 16 <= page + 16 * n
  {
    forall b: nat
      ensures InRow(page, b, n + 1) <==> InRow(page, b, n) || b == page + 16 * n
      ensures InRow(page, b, n) ==> b + 16 <= page + 16 * n
    {
      RowStep(page, b, n);
    }
  }

  lemma RowStep(page: nat, b: nat, n: nat)
    ensures InRow(page, b, n + 1) <==> InRow(page, b, n) || b == page + 16 * n
    ensures InRow(page, b, n) ==> b + 16 <= page + 16 * n
  {
    if page <= b {
      var q, r := (b - page) / 16, (b - page) % 16;
      assert b == page + 16 * q + r;
      if b == page + 16 * n { assert q == n; }
    }
  }

  lemma DescRow(page: nat)
    ensures forall b :: b in DescList(page) <==> InRow(page, b, 256)
    ensures forall k {:trigger DescList(page)[k]} | 0 <= k < 256 :: InRow(page, DescList(page)[k], 256)
              && (k < 255 ==>
                   DescList(page)[k + 1] == DescList(page)[k] + 16) && (DescList(page)[k] + 16 < page + PAGE_SIZE <==>
                       k < 255)
  {
    forall b: nat | InRow(page, b, 256) ensures b in DescList(page) { assert DescList(page)[(b - page) / 16] == b; }
  }

  function NewHome(desc: map<nat, Desc>, home: map<nat, nat>): map<nat, nat> {
    map b | b in desc :: if b in home then home[b] else SPARE
  }

  lemma StockedBy(h: Heap, h': Heap, page: nat)
    requires |h.heads| == |h.lists| == 10 && h.home.Keys == h.desc.Keys && FreshPage(h, page)
    requires forall b | b in DescList(page) :: b !in h.desc
    requires h' == h.(desc := h'.desc, home := NewHome(h'.desc, h.home), heads := h.heads[SPARE := page],
                      lists := h.lists[SPARE := DescList(page) + h.lists[SPARE]], descPages := h.descPages + {page})
    requires forall b :: b in h'.desc <==> b in h.desc || InRow(page, b, 256)
    requires forall b | b in h.desc :: h'.desc[b] == h.desc[b]
    requires forall b: nat | InRow(page, b, 256) :: h'.desc[b].next == if b + 16 < page + PAGE_SIZE then b + 16
               else h.heads[SPARE]
    ensures Stocked(h, h', page)
  {
    hide DescList, InRow, PageOf;
    DescRow(page);
    assert forall k | 0 <= k < 256 :: DescList(page)[k] in DescList(page);
  }

  /** Live objects keep their sizes and their contents. */
  ghost predicate Keeps(h: Heap, h': Heap) {
    forall a | Live(h, a) :: Live(h', a) && LiveSize(h', a) == LiveSize(h, a)
      && forall x | Inside(h, a, x) :: Word(h'.mem, x) == Word(h.mem, x)
  }

  lemma KeepsRefl(h: Heap)
    ensures Keeps(h, h)
  {
  }

  lemma KeepsTwice(h: Heap, h1: Heap, h2: Heap)
    requires Keeps(h, h1) && Keeps(h1, h2)
    ensures Keeps(h, h2)
  {
  }

  /** The live objects lie outside a fresh page. */
  lemma FreshKeeps(h: Heap, h': Heap, page: nat)
    requires page !in h.bucketOf && forall x | PageOf(x) != page :: Word(h'.mem, x) == Word(h.mem, x)
    requires forall a | Live(h, a) :: Live(h', a) && LiveSize(h', a) == LiveSize(h, a)
    ensures Keeps(h, h')
  {
    forall a, x | Live(h, a) && Inside(h, a, x) ensures PageOf(x) != page { InsidePage(h, a, x); }
    hide Live, Word, PageOf;
  }

  lemma ObjectsSteps(page: nat, size: nat)
    requires IsSize(size)
    ensures var list := Objects(page, size); Distinct(list) && |list| >= 1 && list[0] == page
  {
    ObjectsFacts(page, size);
  }

  lemma ObjectStep(page: nat, size: nat, k: nat)
    requires IsSize(size) && page % PAGE_SIZE == 0 && k < PAGE_SIZE / size
    ensures var list := Objects(page, size); PageOf(list[k]) == page && (k + 1 < |list| ==>
              list[k + 1] == list[k] + size)
  {
    var list := Objects(page, size);
    ObjectsFacts(page, size);
    assert list[k] in list;
    ObjectPage(page, size, list[k]);
    assert (k + 1) * size == k * size + size;
  }

  lemma ObjectsSome(page: nat, size: nat)
    requires IsSize(size)
    ensures Objects(page, size) != []
  {
  }

  lemma SoundOn(h: Heap, i: nat)
    requires Sound(h) && i < 10
    ensures |h.heads| == |h.lists| == 10 && h.heads[i] == Nth(h.lists[i], 0) && forall b | b in h.lists[i] ::
              b in h.desc && b != 0
  {
  }

  lemma ListEntry(h: Heap, i: nat, k: nat)
    requires Sound(h) && i < 10
    ensures |h.lists| == 10 && (Nth(h.lists[i], k) != 0 ==> k < |h.lists[i]| && Nth(h.lists[i], k) in h.desc)
  {
  }

  lemma ListStep(h: Heap, i: nat, k: nat)
    requires Sound(h) && i < 10
    ensures |h.lists| == 10
    ensures k < |h.lists[i]| ==>
              h.lists[i][k] in h.desc && h.lists[i][k] != 0 && h.desc[h.lists[i][k]].next == Nth(h.lists[i], k + 1)
  {
  }

  lemma FreeSome(h: Heap, i: nat, k: nat)
    requires Sound(h) && i < 9 && |h.lists| == 10 && k < |h.lists[i]| && h.lists[i][k] in h.desc
    requires h.desc[h.lists[i][k]].freeptr != 0
    ensures var b := h.lists[i][k]; IsBucket(h, b) && h.home[b] == i && b in h.free && h.free[b] != []
  {
    OnFacts(h, i);
    assert h.lists[i][k] in h.lists[i];
    assert IsBucket(h, h.lists[i][k]);
    assert BucketOk(h, h.lists[i][k]);
  }

  /** No bucket of the size that malloc picks for `len` has a free object. */
  ghost predicate Exhausted(h: Heap, len: nat) {
    forall c {:trigger IsBucket(h, c)} | IsBucket(h, c) && Picks(h.home[c], len) :: c in h.free && h.free[c] == []
  }

  /** The smallest size that is large enough. */
  predicate Picks(i: nat, len: nat) {
    i < 9 && len <= SizeAt(i) && (i > 0 ==> SizeAt(i - 1) < len)
  }

  lemma PicksLeast(i: nat, len: nat)
    requires Picks(i, len)
    ensures len <= SizeAt(i) && SizeAt(i) in {16, 32, 64, 128, 256, 512, 1024, 2048, 4096}
    ensures SizeAt(i) > 16 ==> SizeAt(i) / 2 < len
  {
  }

  lemma NoneFree(h: Heap, c: nat)
    requires IsBucket(h, c) && BucketOk(h, c) && h.desc[c].freeptr == 0
    ensures c in h.free && h.free[c] == []
  {
    var list := h.free[c];
    assert forall a | a in list :: a != 0;
    assert Nth(list, 0) == 0;
  }

  lemma AllUsed(h: Heap, i: nat, c: nat)
    requires Sound(h) && i < 9 && |h.lists| == 10 && IsBucket(h, c) && h.home[c] == i
    requires forall k | 0 <= k < |h.lists[i]| :: h.lists[i][k] in h.desc && h.desc[h.lists[i][k]].freeptr == 0
    ensures c in h.free && h.free[c] == []
  {
    assert BucketOk(h, c);
    hide Sound, BucketOk;
    if h.desc[c].freeptr != 0 { NotListed(h, i, c); }
    NoneFree(h, c);
  }

  lemma ChainUsed(h: Heap, i: nat)
    requires Sound(h) && i < 9 && |h.lists| == 10
    requires forall k | 0 <= k < |h.lists[i]| :: h.lists[i][k] in h.desc && h.desc[h.lists[i][k]].freeptr == 0
    ensures forall c {:trigger IsBucket(h, c)} | IsBucket(h, c) && h.home[c] == i :: c in h.free && h.free[c] == []
  {
    hide Sound;
    forall c {:trigger IsBucket(h, c)} | IsBucket(h, c) && h.home[c] == i ensures c in h.free && h.free[c] == []
    {
      AllUsed(h, i, c);
    }
  }

  /** `i` decides whether the size for `len` is used up. */
  lemma PickedExhausted(h: Heap, i: nat, len: nat)
    requires Picks(i, len)
    ensures Exhausted(h, len) <==> forall c {:trigger IsBucket(h, c)} | IsBucket(h, c) && h.home[c] == i ::
              c in h.free && h.free[c] == []
  {
  }

  lemma SpareHead(h: Heap)
    requires Sound(h)
    ensures |h.heads| == |h.lists| == 10 && (h.heads[SPARE] == 0 <==> h.lists[SPARE] == [])
  {
    OnFacts(h, SPARE);
    assert h.lists[SPARE] != [] ==> h.lists[SPARE][0] in h.lists[SPARE];
  }

  lemma SpareFrontSound(h: Heap)
    requires Sound(h) && |h.lists| == 10 && h.lists[SPARE] != []
    ensures |h.heads| == 10 && h.lists[SPARE][0] in h.desc && h.lists[SPARE][0] == h.heads[SPARE]
  {
  }

  lemma StockFacts(h: Heap, h': Heap, page: nat, other: nat)
    requires Sound(h) && Stocked(h, h', page) && FreshPage(h, other) && page != other
    ensures FreshPage(h', other) && Keeps(h, h') && forall a :: Live(h', a) <==> Live(h, a)
  {
    StockKeeps(h, h', page);
    hide Sound, Live, DescList, Word;
  }

  lemma TakeUse(h: Heap, b: nat)
    requires Sound(h) && IsBucket(h, b) && b in h.free && h.free[b] != []
    requires forall c | IsBucket(h, c) && c != b :: h.desc[c].refcnt > 0
    ensures InUse(Take(h, b)) && Keeps(h, Take(h, b))
  {
    TakeKeeps(h, b);
    hide Sound, Live, Word;
  }

  lemma ObjectNotNull(h: Heap, a: nat)
    requires Sound(h) && Live(h, a)
    ensures a != 0
  {
    LiveBucket(h, a);
    hide Sound;
  }

  /** The first `n` objects are threaded. */
  predicate Threads(mem: map<nat, nat>, list: seq<nat>, n: nat) {
    n <= |list| && forall k {:trigger Word(mem, list[k])} | 0 <= k < n :: Word(mem, list[k]) == Nth(list, k + 1)
  }

  /** Object `k` lies in the page, one size before the next. */
  predicate InSteps(list: seq<nat>, k: nat, page: nat, size: nat) {
    k < |list| && PageOf(list[k]) == page && (k + 1 < |list| ==> list[k + 1] == list[k] + size)
  }

  lemma StepFacts(list: seq<nat>, k: nat, page: nat, size: nat)
    requires InSteps(list, k, page, size)
    ensures PageOf(list[k]) == page && Nth(list, k + 1) == if k + 1 < |list| then list[k] + size else 0
    ensures k + 1 < |list| ==> list[k + 1] == list[k] + size
  {
  }

  lemma ThreadNone(mem: map<nat, nat>, list: seq<nat>)
    ensures Threads(mem, list, 0)
  {
  }

  lemma ThreadStep(mem: map<nat, nat>, list: seq<nat>, n: nat)
    requires Distinct(list) && n < |list| && Threads(mem, list, n)
    ensures var mem' := mem[list[n] := Nth(list, n + 1)];
            Threads(mem', list, n + 1) && forall x | x != list[n] :: Word(mem', x) == Word(mem, x)
  {
    var mem' := mem[list[n] := Nth(list, n + 1)];
    forall k {:trigger Word(mem', list[k])} | 0 <= k < n + 1 ensures Word(mem', list[k]) == Nth(list, k + 1) {
      assert k < n ==> list[k] != list[n] && Word(mem, list[k]) == Nth(list, k + 1);
    }
  }

  lemma ThreadsAll(mem: map<nat, nat>, page: nat, size: nat)
    requires IsSize(size) && Threads(mem, Objects(page, size), PAGE_SIZE / size)
    ensures Threaded(mem, page, size)
  {
    hide Objects, Word;
  }

  lemma PageFacts(h: Heap, page: nat)
    requires Sound(h) && page in h.bucketOf
    ensures var b := h.bucketOf[page];
            b in h.desc && b in h.home && h.home[b] < 9 && h.desc[b].page == page && |h.lists| == 10
              && b in h.lists[h.home[b]]
  {
    assert PageOk(h, page);
    assert On(h, h.home[h.bucketOf[page]], h.bucketOf[page]);
    hide Chained, Buckets;
  }

  lemma PageInHome(h: Heap, page: nat)
    requires Sound(h) && page in h.bucketOf
    ensures h.bucketOf[page] in h.desc && h.desc[h.bucketOf[page]].page == page
  {
    PageFacts(h, page);
  }

  lemma PageOwner(h: Heap, i: nat, j: nat, page: nat)
    requires Sound(h) && i < 9 && |h.lists| == 10 && j < |h.lists[i]| && h.lists[i][j] in h.desc
             && h.desc[h.lists[i][j]].page == page
    ensures page in h.bucketOf && h.bucketOf[page] == h.lists[i][j] && h.lists[i][j] in h.home
            && h.home[h.lists[i][j]] == i
  {
    OnFacts(h, i);
    assert h.lists[i][j] in h.lists[i];
    hide Chained, Lists;
    BucketFacts(h, h.lists[i][j]);
  }

  /** A chain that does not hold the bucket is not the chain of its size. */
  lemma NotListed(h: Heap, i: nat, b: nat)
    requires Sound(h) && i < 10 && |h.lists| == 10 && b in h.desc && b in h.home
             && forall k | 0 <= k < |h.lists[i]| :: h.lists[i][k] != b
    ensures h.home[b] != i
  {
  }

  lemma DropReady(h: Heap, i: nat, j: nat)
    requires Sound(h) && i < 9 && |h.lists| == 10 && j < |h.lists[i]|
    ensures CanDrop(h, i, j)
  {
  }

  lemma Before(h: Heap, i: nat, j: nat, k: nat)
    requires Sound(h) && i < 9 && |h.lists| == 10 && j < |h.lists[i]| && k < |h.lists[i]| && h.lists[i][k] in h.desc
    ensures h.desc[h.lists[i][k]].next == Nth(h.lists[i], k + 1) && (h.desc[h.lists[i][k]].next != h.lists[i][j] ==>
              k + 1 != j)
  {
  }

  lemma Runs(h: Heap, i: nat, k: nat)
    requires Sound(h) && i < 10 && |h.lists| == 10 && Nth(h.lists[i], k) == 0 && k <= |h.lists[i]|
    ensures k == |h.lists[i]|
  {
    OnFacts(h, i);
    assert forall m | 0 <= m < |h.lists[i]| :: h.lists[i][m] in h.lists[i];
  }

  lemma HeadIs(h: Heap, i: nat, j: nat)
    requires Sound(h) && i < 10 && |h.lists| == 10 && j < |h.lists[i]|
    ensures |h.heads| == 10 && h.heads[i] == h.lists[i][0] && (h.heads[i] == h.lists[i][j] <==> j == 0)
  {
  }

  /** Only one descriptor has `b` as its successor. */
  lemma BeforeIs(h: Heap, i: nat, j: nat, p: nat)
    requires Sound(h) && i < 9 && |h.lists| == 10 && j < |h.lists[i]| && p in h.desc && h.desc[p].next == h.lists[i][j]
    ensures j > 0 && p == h.lists[i][j - 1]
  {
    var b, n := h.lists[i][j], h.home[p];
    assert On(h, n, p);
    var m :| 0 <= m < |h.lists[n]| && h.lists[n][m] == p;
    ListStep(h, n, m);
    OnFacts(h, i);
    OnFacts(h, n);
    assert b in h.lists[i];
    hide Sound, Chained;
    assert b == h.lists[n][m + 1];
    assert b in h.lists[n];
  }

  lemma GiveUse(h: Heap, b: nat, a: nat)
    requires InUse(h) && IsBucket(h, b) && b in h.free && h.desc[b].refcnt > 0
    ensures forall c | IsBucket(Give(h, b, a), c) && c != b :: Give(h, b, a).desc[c].refcnt > 0
  {
  }

  lemma DropUse(h: Heap, i: nat, j: nat)
    requires Sound(h) && CanDrop(h, i, j)
    requires forall c | IsBucket(h, c) && c != h.lists[i][j] :: h.desc[c].refcnt > 0
    ensures InUse(Drop(h, i, j)) && h.desc[h.lists[i][j]].page !in Drop(h, i, j).bucketOf && Drop(h, i, j).mem == h.mem
  {
    DropFields(h, i, j);
    hide Sound, Drop, CanDrop;
  }

  lemma GiveContents(h: Heap, a: nat)
    requires Sound(h) && Live(h, a) && InUse(h)
    requires var b := h.bucketOf[PageOf(a)]; b in h.desc && b in h.free && h.desc[b].refcnt > 0
    ensures forall y, x | Live(h, y) && y != a && Inside(h, y, x) ::
              Word(Give(h, h.bucketOf[PageOf(a)], a).mem, x) == Word(h.mem, x)
  {
    assert Inside(h, a, a) by { LiveBucket(h, a); }
    forall y, x | Live(h, y) && y != a && Inside(h, y, x) ensures x != a {
      if x == a { LiveApart(h, y, a, x); }
    }
    hide Sound, Live, PageOf;
  }

  /** A freed object whose bucket has others left keeps its page. */
  lemma LastOne(h: Heap, h1: Heap, b: nat, obj: nat)
    requires Sound(h1) && IsBucket(h1, b) && PageOf(obj) == h1.desc[b].page
    requires forall a :: Live(h1, a) <==> Live(h, a) && a != obj
    ensures h1.desc[b].refcnt == 0 <==> forall a | Live(h, a) && PageOf(a) == PageOf(obj) :: a == obj
  {
    EmptyBucket(h1, b);
    hide Sound, Live, PageOf;
    if h1.desc[b].refcnt == 0 {
      forall a | Live(h, a) && PageOf(a) == PageOf(obj) ensures a == obj { assert !Live(h1, a); }
    }
  }

  /** All objects but the freed one keep their places, sizes and contents. */
  ghost predicate Spares(h: Heap, h': Heap, obj: nat) {
    forall a | Live(h, a) && a != obj :: Live(h', a) && LiveSize(h', a) == LiveSize(h, a)
      && forall x | Inside(h, a, x) :: Word(h'.mem, x) == Word(h.mem, x)
  }

  lemma GiveSpares(h: Heap, a: nat)
    requires Sound(h) && Live(h, a) && InUse(h)
    ensures var b := h.bucketOf[PageOf(a)];
              b in h.desc && b in h.free && h.desc[b].refcnt > 0 && Spares(h, Give(h, b, a), a)
  {
    GiveKeeps(h, a);
    GiveContents(h, a);
    hide Sound, Live, PageOf, Word;
  }

  lemma DropSpares(h: Heap, h1: Heap, h2: Heap, obj: nat)
    requires Spares(h, h1, obj) && h2.mem == h1.mem
    requires forall a :: Live(h1, a) <==> Live(h, a) && a != obj
    requires (forall a :: Live(h2, a) <==> Live(h1, a)) && forall a | Live(h1, a) :: LiveSize(h2, a) == LiveSize(h1, a)
    ensures Spares(h, h2, obj)
  {
  }

  lemma GiveFacts(h: Heap, b: nat, a: nat)
    requires b in h.desc && b in h.free && h.desc[b].refcnt > 0
    ensures var h' := Give(h, b, a);
            && h'.lists == h.lists && h'.home == h.home && h'.desc.Keys == h.desc.Keys && h'.bucketOf == h.bucketOf
            && h'.desc[b].page == h.desc[b].page
  {
  }

  lemma NotZero(h: Heap, i: nat, j: nat)
    requires Sound(h) && i < 10 && |h.lists| == 10 && j < |h.lists[i]|
    ensures |h.heads| == 10 && (j > 0 ==> h.lists[i][j - 1] != 0)
  {
    OnFacts(h, i);
    assert forall m | 0 <= m < |h.lists[i]| :: h.lists[i][m] in h.lists[i];
  }

  lemma PageNotNull(h: Heap, b: nat)
    requires Sound(h) && IsBucket(h, b)
    ensures h.desc[b].page != 0
  {
  }

  lemma UseAll(h: Heap, b: nat)
    requires forall c | IsBucket(h, c) && c != b :: h.desc[c].refcnt > 0
    requires b in h.desc && h.desc[b].refcnt != 0
    ensures InUse(h)
  {
  }
}
