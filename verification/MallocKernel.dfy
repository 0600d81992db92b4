/** init_bucket_desc, malloc and free_s (lib/malloc.c). */
module MallocKernel {
  import opened Kernel
  import opened Sequences
  import opened MallocState

  class Allocator {
    var desc: map<nat, Desc>
    var bucketDir: seq<nat>
    var freeBucketDesc: nat
    var mem: map<nat, nat>
    ghost var lists: seq<seq<nat>>
    ghost var home: map<nat, nat>
    ghost var free: map<nat, seq<nat>>
    ghost var bucketOf: map<nat, nat>
    ghost var descPages: set<nat>

    ghost function View(): Heap
      reads this
    {
      Heap(desc, bucketDir + [freeBucketDesc], lists, home, mem, free, bucketOf, descPages)
    }

    ghost predicate Valid()
      reads this
    {
      |bucketDir| == 9 && Sound(View()) && InUse(View())
    }

    constructor ()
      ensures Valid() && forall a :: !Live(View(), a)
    {
      desc, bucketDir, freeBucketDesc, mem := map[], seq(9, _ => 0), 0, map[];
      lists, home, free, bucketOf, descPages := seq(10, _ => []), map[], map[], map[], {};
      new;
      assert forall i, b :: !On(View(), i, b);
    }

    /** The loop of init_bucket_desc: 256 descriptors in a row, the last one before the spare ones. */
    method LayDescs(page: nat)
      requires forall b | InRow(page, b, 256) :: b !in desc
      modifies `desc
      ensures forall b :: b in desc <==> b in old(desc) || InRow(page, b, 256)
      ensures forall b | b in old(desc) :: desc[b] == old(desc)[b]
      ensures forall b: nat | InRow(page, b, 256) :: desc[b].next == if b + 16 < page + PAGE_SIZE then b + 16
                else freeBucketDesc
    {
      ghost var was := desc;
      var bdesc := page;
      var i := 256;
      assert forall b: nat :: !InRow(page, b, 0);
      hide InRow;
      while i > 1
        invariant 1 <= i <= 256 && bdesc == page + 16 * (256 - i)
        invariant forall b :: b in desc <==> b in was || InRow(page, b, 256 - i)
        invariant forall b: nat | InRow(page, b, 256 - i) :: desc[b].next == b + 16
        invariant forall b | b in was :: desc[b] == was[b]
      {
        RowGrows(page, 256 - i);
        desc := desc[bdesc := Desc(0, bdesc + 16, 0, 0, 0)];
        bdesc := bdesc + 16;
        i := i - 1;
      }
      RowGrows(page, 255);
      desc := desc[bdesc := Desc(0, freeBucketDesc, 0, 0, 0)];
    }

    /** init_bucket_desc with the page get_free_page returned. */
    method InitBucketDesc(page: nat)
      requires Valid() && FreshPage(View(), page)
      modifies this
      ensures Valid() && Stocked(old(View()), View(), page) && bucketOf == old(bucketOf) && freeBucketDesc == page
      ensures desc.Keys >= old(desc.Keys)
    {
      hide Sound, InUse, DescList, InRow, Stocked;
      ghost var h := View();
      SoundSizes(h);
      FreshDescs(h, page);
      DescRow(page);
      LayDescs(page);
      freeBucketDesc := page;
      lists := lists[SPARE := DescList(page) + lists[SPARE]];
      home := NewHome(desc, home);
      descPages := descPages + {page};
      assert View().heads == h.heads[SPARE := page];
      StockedBy(h, View(), page);
      StockKeeps(h, View(), page);
    }

    /** The loop of malloc that cuts a page into a chain of `n` free objects. */
    method ThreadObjects(page: nat, size: nat, n: nat, ghost list: seq<nat>)
      requires n == |list| >= 1 && list[0] == page && Distinct(list)
      requires forall k | 0 <= k < n :: InSteps(list, k, page, size)
      modifies `mem
      ensures Threads(mem, list, n) && forall x | PageOf(x) != page :: Word(mem, x) == Word(old(mem), x)
    {
      ThreadNone(mem, list);
      var cp, i := page, n;
      hide PageOf, Word, Distinct, Threads, Nth, InSteps;
      while i > 1
        invariant 1 <= i <= n && cp == list[n - i] && Threads(mem, list, n - i)
        invariant forall x | PageOf(x) != page :: Word(mem, x) == Word(old(mem), x)
      {
        StepFacts(list, n - i, page, size);
        ThreadStep(mem, list, n - i);
        mem := mem[cp := cp + size];
        cp, i := cp + size, i - 1;
      }
      StepFacts(list, n - 1, page, size);
      ThreadStep(mem, list, n - 1);
      mem := mem[cp := 0];
    }

    /** The chain of free objects of a new bucket. */
    method ThreadPage(page: nat, size: nat)
      requires IsSize(size) && page % PAGE_SIZE == 0
      modifies `mem
      ensures Threaded(mem, page, size) && forall x | PageOf(x) != page :: Word(mem, x) == Word(old(mem), x)
    {
      ghost var list := Objects(page, size);
      ObjectsSteps(page, size);
      forall k | 0 <= k < PAGE_SIZE / size ensures InSteps(list, k, page, size) { ObjectStep(page, size, k); }
      hide Objects, PageOf, Word, Distinct, Threads, Threaded, IsSize, InSteps;
      ThreadObjects(page, size, PAGE_SIZE / size, list);
      ThreadsAll(mem, page, size);
    }

    /** malloc's new bucket for size `i`: a spare descriptor and a page. */
    method AddBucket(i: nat, page: nat) returns (b: nat)
      requires Valid() && i < 9 && FreshPage(View(), page) && lists[SPARE] != []
      modifies this
      ensures |bucketDir| == 9 && Sound(View()) && IsBucket(View(), b) && home[b] == i && b in free && free[b] != []
      ensures forall c | IsBucket(View(), c) && c != b :: desc[c].refcnt > 0
      ensures (forall a :: Live(View(), a) <==> Live(old(View()), a)) && Keeps(old(View()), View())
      ensures bucketOf.Keys == old(bucketOf.Keys) + {page} && desc.Keys == old(desc.Keys)
    {
      hide Sound, Live, Objects, Threaded, Word, PageOf, LiveSize, Keeps;
      ghost var h := View();
      SoundSizes(h);
      SpareFrontSound(h);
      b := OpenBucket(i, page);
      NewBucketKeeps(h, i, page, mem);
      FreshKeeps(h, View(), page);
      ObjectsSome(page, SizeAt(i));
    }

    /** The stores for a new bucket. */
    method OpenBucket(i: nat, page: nat) returns (b: nat)
      requires i < 9 && |bucketDir| == 9 && |lists| == 10 && page % PAGE_SIZE == 0
      requires lists[SPARE] != [] && lists[SPARE][0] == freeBucketDesc && freeBucketDesc in desc
      modifies this
      ensures |bucketDir| == 9 && b == old(freeBucketDesc) && View() == NewBucket(old(View()), i, page, mem)
      ensures Threaded(mem, page, SizeAt(i)) && forall x | PageOf(x) != page :: Word(mem, x) == Word(old(mem), x)
    {
      hide Threaded, Word, PageOf, Objects;
      ghost var h := View();
      b := freeBucketDesc;
      freeBucketDesc := desc[b].next;
      ThreadPage(page, SizeAt(i));
      desc := desc[b := Desc(page, bucketDir[i], page, 0, SizeAt(i))];
      bucketDir := bucketDir[i := b];
      lists := lists[SPARE := lists[SPARE][1..]][i := [b] + lists[i]];
      home, free, bucketOf := home[b := i], free[b := Objects(page, SizeAt(i))], bucketOf[page := b];
      assert View().heads == h.heads[SPARE := freeBucketDesc][i := b];
    }

    /** The first bucket of a chain that has a free object; 0 if there is none. */
    method FindBucket(i: nat) returns (b: nat)
      requires Valid() && i < 9
      ensures b != 0 ==> IsBucket(View(), b) && home[b] == i && b in free && free[b] != []
      ensures b == 0 ==> forall c {:trigger IsBucket(View(), c)} | IsBucket(View(), c) && home[c] == i ::
                c in free && free[c] == []
    {
      ghost var h := View();
      SoundSizes(h);
      hide Sound, InUse;
      ghost var k := 0;
      SoundOn(h, i);
      b := bucketDir[i];
      assert b == h.heads[i];
      while b != 0 && desc[b].freeptr == 0
        invariant k <= |lists[i]| && b == Nth(lists[i], k) && (b != 0 ==> b in desc)
        invariant forall l | 0 <= l < k :: lists[i][l] in desc && desc[lists[i][l]].freeptr == 0
        decreases |lists[i]| - k
        modifies {}
      {
        ListStep(h, i, k);
        b, k := desc[b].next, k + 1;
        ListEntry(h, i, k);
      }
      if b != 0 {
        FreeSome(h, i, k);
      } else {
        Runs(h, i, k);
        ChainUsed(h, i);
      }
    }

    /** malloc's new bucket, with a page of descriptors first if none is spare. */
    method NewBucketFor(i: nat, page1: nat, page2: nat) returns (b: nat)
      requires Valid() && i < 9 && FreshPage(View(), page2) && (freeBucketDesc == 0 ==>
                 FreshPage(View(), page1)) && page1 != page2
      modifies this
      ensures |bucketDir| == 9 && Sound(View()) && IsBucket(View(), b) && home[b] == i && b in free && free[b] != []
      ensures forall c | IsBucket(View(), c) && c != b :: desc[c].refcnt > 0
      ensures (forall a :: Live(View(), a) <==> Live(old(View()), a)) && Keeps(old(View()), View())
      ensures bucketOf.Keys == old(bucketOf.Keys) + {page2} && desc.Keys >= old(desc.Keys)
    {
      ghost var h := View();
      hide Sound, Live, Keeps, Stocked;
      KeepsRefl(h);
      SpareHead(h);
      if freeBucketDesc == 0 {
        InitBucketDesc(page1);
        StockFacts(h, View(), page1, page2);
      }
      ghost var h1 := View();
      SpareHead(h1);
      b := AddBucket(i, page2);
      KeepsTwice(h, h1, View());
    }

    /** The search of bucket_dir: the smallest size that is large enough. */
    method PickSize(len: nat) returns (i: nat)
      ensures if len > PAGE_SIZE then i == 9 else Picks(i, len)
    {
      i := 0;
      while i < 9 && SizeAt(i) < len
        invariant i <= 9 && (i > 0 ==> SizeAt(i - 1) < len)
      {
        i := i + 1;
      }
    }

    /** malloc; `page1` and `page2` are what get_free_page would return for a page of descriptors and for a new
        bucket, 0 when there is none. The result 0 stands for a panic. */
    method Malloc(len: nat, page1: nat, page2: nat) returns (r: nat)
      requires Valid() && (page1 != 0 ==> FreshPage(View(), page1)) && (page2 != 0 ==>
                 FreshPage(View(), page2)) && (page1 == page2 ==> page1 == 0)
      modifies this
      ensures Valid() && Keeps(old(View()), View())
      ensures r == 0 ==> forall a :: Live(View(), a) <==> Live(old(View()), a)
      ensures r != 0 ==> !Live(old(View()), r) && forall a :: Live(View(), a) <==> Live(old(View()), a) || a == r
      ensures r != 0 ==> LiveSize(View(), r) in {16, 32, 64, 128, 256, 512, 1024, 2048, 4096}
      ensures r != 0 ==>
                len <= LiveSize(View(), r) && (LiveSize(View(), r) > 16 ==> LiveSize(View(), r) / 2 < len)
      ensures r == 0 <==>
                len > PAGE_SIZE || (old(Exhausted(View(), len))
                  && (page2 == 0 || (old(freeBucketDesc) == 0 && page1 == 0)))
      ensures desc.Keys >= old(desc.Keys)
      ensures r != 0 ==> bucketOf.Keys == old(bucketOf.Keys) + if old(Exhausted(View(), len)) then {page2} else {}
    {
      ghost var h := View();
      hide Sound, Live, LiveSize, Keeps, Exhausted, SizeAt;
      KeepsRefl(h);
      var i := PickSize(len);
      if i == 9 { return 0; }
      PicksLeast(i, len);
      var b := FindBucket(i);
      PickedExhausted(h, i, len);
      if b == 0 {
        if page2 == 0 || (freeBucketDesc == 0 && page1 == 0) { return 0; }
        b := NewBucketFor(i, page1, page2);
      }
      ghost var h2 := View();
      r := TakeObject(b);
      KeepsTwice(h, h2, View());
    }

    /** The last lines of malloc. */
    method TakeObject(b: nat) returns (r: nat)
      requires |bucketDir| == 9 && Sound(View()) && IsBucket(View(), b) && b in free && free[b] != []
      requires forall c | IsBucket(View(), c) && c != b :: desc[c].refcnt > 0
      modifies this
      ensures Valid() && Keeps(old(View()), View())
      ensures r != 0 && !Live(old(View()), r) && Live(View(), r) && LiveSize(View(), r) == SizeAt(old(home[b]))
      ensures forall a :: Live(View(), a) <==> Live(old(View()), a) || a == r
      ensures bucketOf == old(bucketOf) && desc.Keys == old(desc.Keys)
    {
      ghost var h := View();
      hide Sound, Live, Keeps;
      TakeKeeps(h, b);
      r := desc[b].freeptr;
      desc := desc[b := desc[b].(freeptr := Word(mem, r), refcnt := desc[b].refcnt + 1)];
      free := free[b := free[b][1..]];
      assert View() == Take(h, b);
      TakeUse(h, b);
      ObjectNotNull(View(), r);
    }

    /** Anything may be written into a live object. */
    method UserWrite(a: nat, x: nat, w: nat)
      requires Valid() && Live(View(), a) && Inside(View(), a, x)
      modifies `mem
      ensures Valid() && mem == old(mem)[x := w] && forall y :: Live(View(), y) <==> Live(old(View()), y)
    {
      UserKeeps(View(), a, x, w);
      hide Sound;
      mem := mem[x := w];
    }

    /** The inner loop of the search of free_s. */
    method SearchChain(i: nat, page: nat) returns (b: nat, prev: nat, ghost j: nat)
      requires Valid() && i < 9 && page in bucketOf
      ensures b != 0 ==>
                j < |lists[i]| && lists[i][j] == b && b == bucketOf[page] && b in desc && b in home && home[b] == i
      ensures b != 0 ==> prev == if j == 0 then 0 else lists[i][j - 1]
      ensures b == 0 ==> forall k | 0 <= k < |lists[i]| :: lists[i][k] != bucketOf[page]
    {
      hide Sound, InUse, IsBucket, BucketOk, PageOk;
      ghost var h := View();
      SoundOn(h, i);
      ghost var list := lists[i];
      ListEntry(h, i, 0);
      PageInHome(h, page);
      prev, j := 0, 0;
      b := bucketDir[i];
      assert b == h.heads[i];
      while b != 0
        invariant j <= |list| && b == Nth(list, j) && (b != 0 ==> b in desc && j < |list|)
        invariant prev == if j == 0 then 0 else list[j - 1]
        invariant forall k | 0 <= k < j :: list[k] != bucketOf[page]
        decreases |list| - j
        modifies {}
      {
        if desc[b].page == page {
          PageOwner(h, i, j, page);
          return;
        }
        ListStep(h, i, j);
        ListEntry(h, i, j + 1);
        prev := b;
        b, j := desc[b].next, j + 1;
      }
      Runs(h, i, j);
    }

    /** The search of free_s: the bucket of the page, its chain, and the descriptor before it. */
    method FindPage(page: nat, size: nat) returns (i: nat, b: nat, prev: nat, ghost j: nat)
      requires Valid() && page in bucketOf && bucketOf[page] in home && size <= SizeAt(home[bucketOf[page]])
      ensures i < 9 && j < |lists[i]| && lists[i][j] == b && b == bucketOf[page] && b in home && home[b] == i
              && b in desc
      ensures prev == if j == 0 then 0 else lists[i][j - 1]
    {
      ghost var h, t := View(), bucketOf[page];
      hide Sound, InUse;
      SoundSizes(h);
      PageFacts(h, page);
      i := 0;
      while true
        invariant i <= home[t]
        decreases home[t] - i
        modifies {}
      {
        if size <= SizeAt(i) {
          b, prev, j := SearchChain(i, page);
          if b != 0 { return; }
          NotListed(h, i, t);
        }
        i := i + 1;
      }
    }

    /** The second search of free_s: whatever `prev` was, what comes out is the descriptor before `b`. */
    method FindPrev(i: nat, b: nat, prev: nat, ghost j: nat) returns (p: nat)
      requires |bucketDir| == 9 && Sound(View()) && i < 9 && j < |lists[i]| && lists[i][j] == b && b in desc
      requires prev == 0 || prev in desc
      ensures p == if j == 0 then 0 else lists[i][j - 1]
      ensures p != 0 ==> p in desc
    {
      ghost var h, list := View(), lists[i];
      hide Sound;
      HeadIs(h, i, j);
      assert bucketDir[i] == h.heads[i];
      p := prev;
      if (p != 0 && desc[p].next != b) || (p == 0 && bucketDir[i] != b) {
        ghost var k := 0;
        ListEntry(h, i, 0);
        p := bucketDir[i];
        while p != 0 && desc[p].next != b
          invariant k <= |list| && p == Nth(list, k) && (p != 0 ==> p in desc && k < |list|)
          invariant j > 0 ==> k < j
          decreases |list| - k
          modifies {}
        {
          ListStep(h, i, k);
          ListEntry(h, i, k + 1);
          p, k := desc[p].next, k + 1;
        }
        if p == 0 { Runs(h, i, k); }
      }
      if p != 0 { BeforeIs(h, i, j, p); }
    }

    /** The end of free_s for a bucket that has become empty. */
    method Unchain(i: nat, b: nat, prev: nat, ghost j: nat)
      requires |bucketDir| == 9 && Sound(View()) && i < 9 && j < |lists[i]| && lists[i][j] == b && b in desc
      requires prev == 0 || prev in desc
      modifies this
      ensures |bucketDir| == 9 && CanDrop(old(View()), i, j) && View() == Drop(old(View()), i, j)
    {
      ghost var h := View();
      hide Sound;
      SoundSizes(h);
      DropReady(h, i, j);
      var p := FindPrev(i, b, prev, j);
      NotZero(h, i, j);
      if p != 0 {
        desc := desc[p := desc[p].(next := desc[b].next)];
      } else {
        bucketDir := bucketDir[i := desc[b].next];
      }
      ghost var page := desc[b].page;
      desc := desc[b := desc[b].(next := freeBucketDesc)];
      freeBucketDesc := b;
      lists := lists[i := Without(lists[i], j)][SPARE := [b] + lists[SPARE]];
      home, bucketOf := home[b := SPARE], bucketOf - {page};
      assert View().heads == Drop(h, i, j).heads;
    }

    /** The stores of free_s that put the object back. */
    method PutBack(b: nat, obj: nat)
      requires |bucketDir| == 9 && b in desc && b in free && desc[b].refcnt > 0
      modifies this
      ensures |bucketDir| == 9 && View() == Give(old(View()), b, obj)
      ensures lists == old(lists) && home == old(home) && desc.Keys == old(desc.Keys) && bucketOf == old(bucketOf)
    {
      mem := mem[obj := desc[b].freeptr];
      desc := desc[b := desc[b].(freeptr := obj, refcnt := desc[b].refcnt - 1)];
      free := free[b := [obj] + free[b]];
    }

    /** free_s; `size` is 0 or the size asked for. The page is given back exactly when its last object goes. */
    method FreeS(obj: nat, size: nat) returns (released: nat)
      requires Valid() && Live(View(), obj) && size <= LiveSize(View(), obj)
      modifies this
      ensures Valid() && forall a :: Live(View(), a) <==> Live(old(View()), a) && a != obj
      ensures released == 0 || released == PageOf(obj)
      ensures released != 0 <==> forall a | Live(old(View()), a) && PageOf(a) == PageOf(obj) :: a == obj
      ensures bucketOf == if released != 0 then old(bucketOf) - {PageOf(obj)} else old(bucketOf)
      ensures desc.Keys == old(desc.Keys)
      ensures Spares(old(View()), View(), obj)
    {
      ghost var h := View();
      LiveBucket(h, obj);
      SamePage(obj);
      hide Sound, Live, BucketOk, InUse, PageOf, Give, Drop, Spares;
      var page := obj - obj % PAGE_SIZE;
      var i, b, prev;
      ghost var j;
      i, b, prev, j := FindPage(page, size);
      if prev != 0 { ListEntry(h, i, j - 1); }
      GiveKeeps(h, obj);
      PutBack(b, obj);
      ghost var h1 := View();
      GiveFacts(h, b, obj);
      LastOne(h, h1, b, obj);
      GiveSpares(h, obj);
      GiveUse(h, b, obj);
      released := 0;
      if desc[b].refcnt == 0 {
        DropReady(h1, i, j);
        DropKeeps(h1, i, j);
        DropFields(h1, i, j);
        Unchain(i, b, prev, j);
        DropUse(h1, i, j);
        DropSpares(h, h1, View(), obj);
        released := page;
        PageNotNull(h1, b);
      } else {
        UseAll(h1, b);
      }
    }
  }
}
