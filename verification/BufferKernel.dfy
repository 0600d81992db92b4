/** The buffer cache of fs/buffer.c with the locking of kernel/blk_drv, as one process runs it among others.
    The processor changes hands only in Sleep. */
module BufferKernel {
  import opened BufferLists
  import opened Sequences
  import opened BufferState
  import opened Wrappers

  class BufferCache {
    var bh: seq<Head>
    var hashTable: seq<int>
    var freeList: int
    var data: seq<Block>
    var io: seq<Io>
    var disk: map<Name, Block>
    ghost var chain: seq<seq<nat>>
    ghost var ring: seq<nat>
    ghost var latest: map<Name, Block>
    ghost var mine: seq<nat>
    ghost var others: seq<nat>
    ghost var seen: seq<Head>
    ghost var known: map<Name, Block>
    ghost var naps: nat                // how often this process has slept
    ghost const own: set<Name>
    ghost const foreign: set<Name>

    ghost function View(): State
      reads this
    {
      State(bh, hashTable, freeList, chain, ring, data, io, disk, latest, mine, others, own, foreign, seen, known)
    }

    ghost predicate Valid()
      reads this
    {
      Good(View())
    }

    /** buffer_init, on a disk that holds what was last stored on it. */
    constructor (n: nat, disk: map<Name, Block>, ghost own: set<Name>, ghost foreign: set<Name>)
      requires n >= 2
      ensures Valid() && |bh| == n && this.own == own && this.foreign == foreign && latest == this.disk == disk
      ensures mine == others == seq(n, _ => 0)
    {
      bh := seq(n, i requires 0 <= i < n =>
        Head(0, 0, false, false, 0, false, -1, -1, if i == 0 then n - 1 else i - 1, if i == n - 1 then 0 else i + 1));
      hashTable := seq(NR_HASH, _ => -1);
      freeList, data, io := 0, seq(n, _ => []), seq(n, _ => Idle);
      this.disk, latest := disk, disk;
      chain, ring := seq(NR_HASH, _ => []), seq(n, i => i);
      mine, others, known := seq(n, _ => 0), seq(n, _ => 0), disk;
      this.own, this.foreign, naps := own, foreign, 0;
      new;
      seen := bh;
      StartGood(View(), n);
    }

    /** The processor goes to the others, and interrupts may finish transfers.  Only the contract is known
        to the callers: whatever keeps the invariants and what this process holds may have happened. */
    method Sleep()
      requires Valid()
      modifies this
      ensures Valid() && Rely(old(View()), View()) && mine == old(mine)
      ensures seen == bh && known == latest && naps == old(naps) + 1
    {
      RestKeeps(View());
      hide Good, Rely;
      seen, known, naps := bh, latest, naps + 1;
    }

    /** end_request and unlock_buffer: the transfer of a buffer is done; a write always succeeds. */
    method EndRequest(x: nat, ok: bool)
      requires Valid() && x < |bh| && bh[x].lock && (ok || io[x].Reading?)
      modifies this
      ensures Valid() && View() == EndIo(old(View()), x, ok) && Rely(old(View()), View()) && naps == old(naps)
    {
      hide Good, Rely;
      GoodSizes(View());
      LockedIo(View(), x);
      EndIoKeeps(View(), x, ok);
      if io[x].Writing? {
        disk := disk[NameOf(bh[x]) := data[x]];
      } else if ok {
        data := data[x := Content(disk, NameOf(bh[x]))];
      }
      bh := bh[x := bh[x].(lock := false, uptodate := ok)];
      io := io[x := Idle];
      assert View() == EndIo(old(View()), x, ok);
    }

    /** wait_on_buffer: the sleep ends when the pending transfer has been done. */
    method WaitOnBuffer(x: nat)
      requires Valid() && x < |bh|
      modifies this
      ensures Valid() && Rely(old(View()), View()) && mine == old(mine) && !bh[x].lock
      ensures if old(bh[x].lock) then naps == old(naps) + 1 else View() == old(View()) && naps == old(naps)
    {
      hide Good, StaysUsable, Untouched;
      RelyRefl(View());
      if bh[x].lock {
        ghost var s := View();
        Sleep();
        if bh[x].lock {
          ghost var s1 := View();
          LockedIo(s1, x);
          EndRequest(x, true);
          RelyTwice(s, s1, View());
        }
      }
    }

    /** find_buffer */
    method FindBuffer(dev: nat, block: nat) returns (r: int)
      requires Valid() && dev != 0
      ensures -1 <= r < |bh|
      ensures r >= 0 ==> NameOf(bh[r]) == Name(dev, block)
      ensures r < 0 ==> forall y | 0 <= y < |bh| :: NameOf(bh[y]) != Name(dev, block)
    {
      ghost var k := Hash(dev, block);
      HashedSizes(bh, hashTable, chain, -1);
      ghost var list := chain[k];
      ghost var i := 0;
      r := hashTable[Hash(dev, block)];
      hide Hash, Coherent, Ringed, Unique;
      while r >= 0
        invariant i <= |list| && r == At(list, i) && -1 <= r < |bh|
        invariant forall j | 0 <= j < i :: NameOf(bh[list[j]]) != Name(dev, block)
        decreases |list| - i
        modifies {}
      {
        if bh[r].dev == dev && bh[r].blocknr == block { return; }
        assert bh[list[i]].next == At(list, i + 1);
        r, i := bh[r].next, i + 1;
      }
      forall y | 0 <= y < |bh| ensures NameOf(bh[y]) != Name(dev, block) {
        assert NameOf(bh[y]) == Name(dev, block) ==> y in list;
      }
    }

    /** remove_from_free_list */
    method RemoveFromFreeList(x: nat)
      requires x < |bh| && 0 <= bh[x].nextFree < |bh| && 0 <= bh[x].prevFree < |bh|
      modifies `bh, `freeList
      ensures bh == Leave(old(bh), x)
      ensures freeList == if old(freeList) == x then old(bh[x].nextFree) else old(freeList)
    {
      var p, n := bh[x].prevFree, bh[x].nextFree;
      bh := bh[p := bh[p].(nextFree := n)];
      bh := bh[n := bh[n].(prevFree := p)];
      if freeList == x {
        freeList := n;
      }
      bh := bh[x := bh[x].(nextFree := -1, prevFree := -1)];
    }

    /** The insertion before the front that ends put_last_free and starts insert_into_queues. */
    method AddToBack(x: nat)
      requires x < |bh| && 0 <= freeList < |bh| && 0 <= bh[freeList].prevFree < |bh|
      modifies `bh
      ensures bh == Join(old(bh), x, freeList)
    {
      var last := bh[freeList].prevFree;
      bh := bh[x := bh[x].(nextFree := freeList, prevFree := last)];
      bh := bh[last := bh[last].(nextFree := x)];
      bh := bh[freeList := bh[freeList].(prevFree := x)];
    }

    /** put_last_free */
    method PutLastFree(x: nat)
      requires Valid() && x < |bh|
      modifies this
      ensures x in old(ring) && CanLeave(old(bh), old(freeList), x)
      ensures Valid() && View() == PutLast(old(View()), x) && Rely(old(View()), View()) && naps == old(naps)
    {
      hide Good, Rely, Leave, Join;
      PutLastKeeps(View(), x);
      if x == freeList {
        freeList := bh[x].nextFree;
        ring := ring[1..] + [ring[0]];
      } else {
        LeaveSame(bh, x);
        RemoveFromFreeList(x);
        AddToBack(x);
        ring := Without(ring, IndexOf(ring, x)) + [x];
      }
    }

    /** The b_count++ and b_count-- of a holder. */
    method Hold(x: nat)
      requires Valid() && x < |bh| && bh[x].dev != 0
      modifies this
      ensures Valid() && View() == Use(old(View()), x, old(mine[x]) + 1) && Rely(old(View()), View())
              && naps == old(naps)
    {
      hide Good, Rely;
      GoodSizes(View());
      UseKeeps(View(), x, mine[x] + 1);
      bh := bh[x := bh[x].(count := bh[x].count + 1)];
      mine := mine[x := mine[x] + 1];
    }

    method Drop(x: nat)
      requires Valid() && x < |bh| && |mine| == |bh| && mine[x] > 0
      modifies this
      ensures Valid() && View() == Use(old(View()), x, old(mine[x]) - 1) && Rely(old(View()), View())
              && naps == old(naps)
    {
      hide Good, Rely;
      GoodSizes(View());
      UseKeeps(View(), x, mine[x] - 1);
      bh := bh[x := bh[x].(count := bh[x].count - 1)];
      mine := mine[x := mine[x] - 1];
    }

    /** get_hash_table.  What is held keeps its name, so the test after the wait always succeeds and the
        loop of the source ends in its first round. */
    method GetHashTable(dev: nat, block: nat) returns (r: int)
      requires Valid() && dev != 0
      modifies this
      ensures Valid() && Rely(old(View()), View()) && -1 <= r < |bh| == old(|mine|)
      ensures r < 0 ==> View() == old(View()) && naps == old(naps) && forall y | 0 <= y < |bh| ::
                NameOf(bh[y]) != Name(dev, block)
      ensures r >= 0 ==> NameOf(bh[r]) == Name(dev, block) && !bh[r].lock && mine == old(mine[r := mine[r] + 1])
      ensures naps >= old(naps)
    {
      hide Good, Untouched;
      ghost var s := View();
      GoodSizes(s);
      r := FindBuffer(dev, block);
      if r < 0 {
        RelyRefl(s);
        return;
      }
      Hold(r);
      ghost var s1 := View();
      WaitOnBuffer(r);
      assert StaysUsable(s1.h[r], bh[r]);
      ghost var s2 := View();
      PutLastKeeps(s2, r);
      PutLastFree(r);
      RelyTwice(s, s1, s2);
      RelyTwice(s, s2, View());
    }

    /** ll_rw_block(WRITEA): never sleeps; it gives up when the buffer is locked or no request slot is free. */
    method WriteAhead(x: nat)
      requires Valid() && x < |bh| && bh[x].dirt
      modifies this
      ensures Valid() && Started(old(View()), View()) && Rely(old(View()), View()) && naps == old(naps)
      ensures View() == old(View()) || (!old(bh[x].lock) && View() == StartIo(old(View()), x, true))
    {
      hide Good, Rely;
      RelyRefl(View());
      GoodSizes(View());
      if bh[x].lock {
        return;
      }
      if * {
        StartIoKeeps(View(), x, true);
        bh := bh[x := bh[x].(lock := true, dirt := false)];
        io := io[x := Writing];
        assert View() == StartIo(old(View()), x, true);
      }
    }

    /** One round of the search of getblk. */
    method Weigh(tmp: nat, r: int) returns (r': int, done: bool)
      requires Valid() && tmp < |bh| && Chosen(bh, r)
      modifies this
      ensures Valid() && Rely(old(View()), View()) && Started(old(View()), View()) && naps == old(naps)
      ensures -1 <= r' < |bh| && (r >= 0 ==> r' >= 0) && (r' >= 0 ==> bh[r'].count == 0)
      ensures if done then r' >= 0 && Badness(bh[r']) == 0 else Chosen(bh, r') && Passed(old(bh), bh, tmp, r')
      ensures 0 <= r < |bh| && r' >= 0 ==> Badness(bh[r']) <= Badness(old(bh[r]))
    {
      hide Good, Rely;
      RelyRefl(View());
      r', done := r, false;
      if bh[tmp].count == 0 {
        if r < 0 || Badness(bh[tmp]) < Badness(bh[r]) {
          r' := tmp;
          if Badness(bh[tmp]) == 0 {
            done := true;
            return;
          }
        }
        if bh[tmp].dirt {
          WriteAhead(tmp);
        }
      }
    }

    /** The search of getblk: from the second buffer of the free list once round and one more.  It finds no
        buffer only when all are held, and otherwise one than which none that was free was better. */
    method FindVictim() returns (r: int)
      requires Valid()
      modifies this
      ensures Valid() && Rely(old(View()), View()) && Started(old(View()), View()) && mine == old(mine)
      ensures -1 <= r < |bh| && naps == old(naps)
      ensures r < 0 ==> forall y | 0 <= y < |bh| :: bh[y].count > 0
      ensures r >= 0 ==> bh[r].count == 0
      ensures r >= 0 && Badness(bh[r]) > 0 ==> forall y | 0 <= y < |bh| && bh[y].count == 0 :: Badness(bh[y]) > 0
      ensures r >= 0 ==> Best(old(bh), bh[r])
    {
      hide Good, Rely, Scanned, Badness, Started, Passed, Best;
      ghost var s := View();
      RelyRefl(s);
      RingFrom(s);
      var buffers := |bh|;
      var tmp := freeList;
      r := -1;
      ghost var i := 0;
      ScanStart(bh, ring);
      StartedRefl(s);
      while buffers >= 0
        invariant buffers == |s.ring| - i && 0 <= i <= |s.ring| + 1
        invariant Valid() && Rely(s, View()) && Started(s, View()) && naps == old(naps)
        invariant tmp == s.ring[if i < |s.ring| then i else i - |s.ring|]
        invariant Scanned(s.h, bh, ring, r, i)
        decreases buffers
      {
        ghost var s1, r1 := View(), r;
        StartedFacts(s, s1);
        ScanFacts(s.h, bh, ring, r, i);
        RingStep(s, if i < |s.ring| then i else i - |s.ring|);
        tmp := bh[tmp].nextFree;
        var done;
        r, done := Weigh(tmp, r);
        StartedFacts(s1, View());
        RelyTwice(s, s1, View());
        StartedTwice(s, s1, View());
        if done {
          NoneBetter(s.h, bh[r]);
          return;
        }
        ScanStep(s, s1, View(), r1, r, i);
        buffers, i := buffers - 1, i + 1;
      }
      StartedFacts(s, View());
      ScanFacts(s.h, bh, ring, r, i);
      ScanDone(s.h, bh, ring, r);
      forall y | 0 <= y < |bh| && bh[y].count == 0 ensures r >= 0 && Badness(bh[y]) > 0 {
        PassedFacts(s.h, bh, y, r);
        StartedAt(s, View(), y);
      }
    }

    /** ll_rw_block(READ) and ll_rw_block(WRITE) with lock_buffer and add_request. */
    method LlRwBlock(write: bool, x: nat)
      requires Valid() && x < |bh| && |mine| == |bh| && (!write ==> mine[x] > 0)
      modifies this
      ensures Valid() && Rely(old(View()), View()) && mine == old(mine)
      ensures if old(bh[x].lock) then naps == old(naps) + 1
              else naps == old(naps) && old(|io|) == old(|bh|)
                   && View() == if (if write then old(bh[x].dirt) else !old(bh[x].uptodate))
                                then StartIo(old(View()), x, write)
                                else old(View())
    {
      hide Good, Untouched;
      ghost var s := View();
      GoodSizes(s);
      WaitOnBuffer(x);
      if (write && !bh[x].dirt) || (!write && bh[x].uptodate) {
        return;
      }
      ghost var s1 := View();
      GoodSizes(s1);
      assert !write ==> StaysUsable(s.h[x], s1.h[x]);
      StartIoKeeps(s1, x, write);
      if write {
        bh := bh[x := bh[x].(dirt := false, lock := true)];
        io := io[x := Writing];
      } else {
        bh := bh[x := bh[x].(lock := true)];
        io := io[x := Reading];
      }
      assert View() == StartIo(s1, x, write);
      RelyTwice(s, s1, View());
    }

    /** sync_buffers: the walk follows the links as they are after each sleep.  It sleeps unless no buffer is locked at
        the call; then every dirty buffer is on its way to the disk and nothing else has changed. */
    method SyncBuffers()
      requires Valid()
      modifies this
      ensures Valid() && Rely(old(View()), View()) && mine == old(mine) && naps >= old(naps)
      ensures naps == old(naps) <==> Unlocked(old(bh))
      ensures naps == old(naps) ==> |bh| == old(|bh|) && forall y | 0 <= y < |bh| :: bh[y] == Flushed(old(bh[y]))
    {
      hide Good, Rely, Walked, Unlocked, Flushed;
      ghost var s := View();
      GoodSizes(s);
      RelyRefl(s);
      RingFrom(s);
      WalkedNone(s);
      var x := freeList;
      var n := |bh|;
      for i := 0 to n
        invariant Valid() && Rely(s, View()) && mine == s.mine && 0 <= x < |bh| == n && naps >= old(naps)
        invariant naps == old(naps) ==> Walked(s, View(), i) && x == s.ring[if i < n then i else 0]
        invariant Unlocked(s.h) ==> naps == old(naps)
      {
        ghost var s1 := View();
        GoodSizes(s1);
        if naps == old(naps) { WalkedTo(s, s1, i); }
        WaitOnBuffer(x);
        ghost var s2 := View();
        RelyTwice(s, s1, s2);
        RelySizes(s, s2);
        if bh[x].dirt {
          LlRwBlock(true, x);
          RelyTwice(s, s2, View());
          RelySizes(s, View());
        }
        NextFree(View(), x);
        if naps == old(naps) { WalkedOn(s, s1, View(), i); }
        x := bh[x].nextFree;
      }
      if naps == old(naps) { WalkedAll(s, View()); }
    }

    /** sync_dev; sync_inodes, which stores inodes into buffers, counts as a sleep. */
    method SyncDev()
      requires Valid()
      modifies this
      ensures Valid() && Rely(old(View()), View()) && mine == old(mine) && naps > old(naps)
    {
      hide Good, Rely;
      ghost var s := View();
      SyncBuffers();
      ghost var s1 := View();
      Sleep();
      ghost var s2 := View();
      RelyTwice(s, s1, s2);
      SyncBuffers();
      RelyTwice(s, s2, View());
    }

    /** remove_from_hash_queue */
    method RemoveFromHashQueue(x: nat)
      requires x < |bh| && bh[x].next < |bh| && bh[x].prev < |bh| && |hashTable| == NR_HASH
      modifies `bh, `hashTable
      ensures bh == Unlink(old(bh), x) && hashTable == UnlinkTable(old(bh), old(hashTable), x)
    {
      hide Hash;
      if bh[x].next >= 0 {
        bh := bh[bh[x].next := bh[bh[x].next].(prev := bh[x].prev)];
      }
      if bh[x].prev >= 0 {
        bh := bh[bh[x].prev := bh[bh[x].prev].(next := bh[x].next)];
      }
      var k := Hash(bh[x].dev, bh[x].blocknr);
      if hashTable[k] == x {
        hashTable := hashTable[k := bh[x].next];
      }
      bh := bh[x := bh[x].(next := -1, prev := -1)];
    }

    /** remove_from_queues */
    method RemoveFromQueues(x: nat)
      requires CanTakeOut(View(), x)
      modifies this
      ensures View() == TakeOut(old(View()), x) && naps == old(naps)
    {
      hide Hash, Unlink, UnlinkTable, UnlinkChains, Leave;
      RemoveFromHashQueue(x);
      RemoveFromFreeList(x);
      chain, ring := UnlinkChains(old(bh), chain, x), Without(ring, IndexOf(ring, x));
    }

    /** insert_into_queues of a buffer with a device; the store through b_next is guarded. */
    method InsertIntoQueues(x: nat)
      requires CanPutIn(View(), x) && bh[x].dev != 0
      modifies this
      ensures View() == PutIn(old(View()), x) && naps == old(naps)
    {
      hide Hash;
      JoinSame(bh, x, freeList);
      AddToBack(x);
      ghost var h1 := bh;
      var k := Hash(bh[x].dev, bh[x].blocknr);
      bh := bh[x := bh[x].(prev := -1, next := hashTable[k])];
      hashTable := hashTable[k := x];
      if bh[x].next >= 0 {
        bh := bh[bh[x].next := bh[bh[x].next].(prev := x)];
      }
      chain, ring := chain[k := [x] + chain[k]], ring + [x];
    }

    /** The last lines of getblk: only a buffer nobody uses, clean and unlocked, gets the name of another block,
        and only a block that is cached nowhere. */
    method Reassign(x: nat, n: Name)
      requires Valid() && Free(View(), x, n)
      modifies this
      ensures Valid() && Rely(old(View()), View()) && CanAssign(old(View()), x, n)
      ensures View() == Assign(old(View()), x, n) && NameOf(bh[x]) == n && mine == old(mine[x := 1])
      ensures naps == old(naps)
    {
      hide Good, Rely, TakeOut, PutIn, CanTakeOut, CanPutIn;
      GoodSizes(View());
      AssignKeeps(View(), x, n);
      TakeOutSizes(View(), x);
      RemoveFromQueues(x);
      bh := bh[x := bh[x].(count := 1, dirt := false, uptodate := false, dev := n.dev, blocknr := n.blocknr)];
      mine := mine[x := 1];
      InsertIntoQueues(x);
    }

    /** The waits of getblk for the chosen buffer; it is lost when somebody takes it meanwhile. */
    method Settle(x: nat, patience: nat) returns (ok: bool)
      requires Valid() && x < |bh| && bh[x].count == 0 && patience > 0
      modifies this
      ensures Valid() && Rely(old(View()), View()) && mine == old(mine)
      ensures ok ==> x < |bh| && bh[x].count == 0 && !bh[x].lock && !bh[x].dirt
      ensures naps > old(naps) || (ok && naps == old(naps) && View() == old(View()))
    {
      hide Good, Rely;
      ghost var s := View();
      GoodSizes(s);
      ok := false;
      WaitOnBuffer(x);
      RelySizes(s, View());
      if bh[x].count != 0 { return; }
      var left := patience;
      while bh[x].dirt
        invariant Valid() && Rely(s, View()) && mine == s.mine && left <= patience
        invariant x < |bh| && bh[x].count == 0 && !bh[x].lock
        invariant naps > old(naps) || (left == patience && naps == old(naps) && View() == s)
        decreases left
      {
        if left == 0 { return; }
        left := left - 1;
        ghost var s1 := View();
        SyncDev();
        ghost var s2 := View();
        RelyTwice(s, s1, s2);
        RelySizes(s, s2);
        WaitOnBuffer(x);
        RelyTwice(s, s2, View());
        RelySizes(s, View());
        if bh[x].count != 0 { return; }
      }
      ok := true;
    }

    /** getblk.  The jumps back to the start and the waits for a clean buffer are not bounded by anything the
        running process controls: `patience` bounds them here.  It jumps back only after it has slept. */
    method GetBlk(dev: nat, block: nat, patience: nat) returns (r: Option<nat>)
      requires Valid() && dev != 0
      modifies this
      ensures Valid() && Rely(old(View()), View()) && |bh| == old(|mine|)
      ensures r.None? ==> mine == old(mine) && naps >= old(naps) + patience
      ensures r.Some? ==> r.value < |bh| && NameOf(bh[r.value]) == Name(dev, block) && naps >= old(naps)
                          && mine == old(mine[r.value := mine[r.value] + 1])
    {
      hide Good, Rely, Assign, CanAssign, Started;
      ghost var s := View();
      GoodSizes(s);
      RelyRefl(s);
      var left := patience;
      label Repeat:
      while left > 0
        invariant Valid() && Rely(s, View()) && mine == s.mine && left <= patience
                  && naps >= old(naps) + (patience - left)
      {
        left := left - 1;
        ghost var s1, naps1 := View(), naps;
        var x := GetHashTable(dev, block);
        RelyTwice(s, s1, View());
        RelySizes(s, View());
        if x >= 0 {
          return Some(x);
        }
        x := FindVictim();
        ghost var s2 := View();
        RelyTwice(s, s1, s2);
        if x < 0 {
          Sleep();
          RelyTwice(s, s2, View());
          continue Repeat;
        }
        RelySizes(s, s2);
        var ok := Settle(x, patience);
        RelyTwice(s, s2, View());
        if !ok {
          continue Repeat;
        }
        ghost var s5 := View();
        RelySizes(s, s5);
        GoodSizes(s5);
        var y := FindBuffer(dev, block);
        if y >= 0 {
          assert naps > naps1 by {
            if naps == naps1 { StartedNames(s1, s5); }
          }
          continue Repeat;
        }
        Reassign(x, Name(dev, block));
        RelyTwice(s, s5, View());
        RelySizes(s, View());
        return Some(x);
      }
      RelySizes(s, View());
      return None;
    }

    /** brelse */
    method Brelse(x: nat)
      requires Valid() && x < |bh| && |mine| == |bh| && mine[x] > 0
      modifies this
      ensures Valid() && Rely(old(View()), View()) && mine == old(mine[x := mine[x] - 1]) && naps >= old(naps)
      ensures !old(bh[x].lock) ==>
                naps == old(naps) && |mine| == |others| == |bh| && View() == Use(old(View()), x, mine[x])
    {
      hide Good, Rely;
      ghost var s := View();
      GoodSizes(s);
      WaitOnBuffer(x);
      ghost var s1 := View();
      RelySizes(s, s1);
      Drop(x);
      RelyTwice(s, s1, View());
    }

    /** The first half of minix_free_block: the buffer of a block that is freed loses its contents, unless somebody
        uses it. */
    method Forget(dev: nat, block: nat) returns (ok: bool)
      requires Valid() && dev != 0 && Name(dev, block) !in foreign
      modifies this
      ensures Valid() && mine == old(mine) && naps >= old(naps)
      ensures !ok ==> Rely(old(View()), View()) && exists x ::
                0 <= x < |bh| && NameOf(bh[x]) == Name(dev, block) && bh[x].count > 0
      ensures ok ==> Held(old(bh), mine, bh) && Untouched(own - {Name(dev, block)}, old(latest), latest)
      ensures ok ==> forall x | 0 <= x < |bh| && NameOf(bh[x]) == Name(dev, block) :: !bh[x].uptodate && !bh[x].dirt
    {
      hide Structured, Coherent;
      ghost var s := View();
      var r := GetHashTable(dev, block);
      if r < 0 {
        return true;
      }
      ghost var s1 := View();
      if bh[r].count > 1 {
        Brelse(r);
        RelyTwice(s, s1, View());
        return false;
      }
      ForgetKeeps(s1, r);
      latest := latest[NameOf(bh[r]) := Content(disk, NameOf(bh[r]))];
      bh := bh[r := bh[r].(dirt := false, uptodate := false)];
      assert View() == BufferState.Forget(s1, r);
      OnlyOne(View(), r);
      if bh[r].count != 0 {
        Brelse(r);
      }
      return true;
    }

    /** bread: what it returns holds the bytes last stored for the block, whatever was evicted, written back or
        read again meanwhile; a block only this process stores to holds the bytes of its own last store. */
    method Bread(dev: nat, block: nat, patience: nat) returns (r: Option<nat>)
      requires Valid() && dev != 0
      modifies this
      ensures Valid() && Rely(old(View()), View()) && |bh| == |data| == old(|mine|) && naps >= old(naps)
      ensures r.None? ==> mine == old(mine) && (patience > 0 ==> naps > old(naps))
      ensures r.Some? ==> r.value < |bh| && NameOf(bh[r.value]) == Name(dev, block) && bh[r.value].uptodate
                          && mine == old(mine[r.value := mine[r.value] + 1])
                          && data[r.value] == Content(latest, Name(dev, block))
      ensures r.Some? && Name(dev, block) in own ==> data[r.value] == Content(old(latest), Name(dev, block))
    {
      hide Good, Rely;
      ghost var s := View();
      GoodSizes(s);
      r := GetBlk(dev, block, patience);
      ghost var s1 := View();
      RelySizes(s, s1);
      GoodSizes(s1);
      if r.None? {
        return;
      }
      var x := r.value;
      if !bh[x].uptodate {
        LlRwBlock(false, x);
        ghost var s2 := View();
        RelySizes(s1, s2);
        RelyTwice(s1, s1, s2) by { RelyRefl(s1); }
        WaitOnBuffer(x);
        RelyTwice(s1, s2, View());
        RelyTwice(s, s1, View());
        RelySizes(s, View());
        HeldName(s1, View(), x);
        if !bh[x].uptodate {
          ghost var s3 := View();
          Brelse(x);
          RelyTwice(s, s3, View());
          GoodSizes(View());
          return None;
        }
      }
      UpToDate(View(), x);
      OwnKept(s, View());
      GoodSizes(View());
    }

    /** A holder of a buffer changes its bytes and sets b_uptodate and b_dirt, as all of fs/minix does. */
    method Update(x: nat, bytes: Block)
      requires Valid() && x < |bh| && |mine| == |bh| == |data| && mine[x] > 0 && (bh[x].uptodate || !bh[x].lock)
      requires NameOf(bh[x]) !in foreign
      modifies this
      ensures Valid() && View() == Store(old(View()), x, bytes) && naps == old(naps)
      ensures Content(latest, NameOf(bh[x])) == bytes
    {
      hide Good, Held;
      StoreKeeps(View(), x, bytes);
      latest := latest[NameOf(bh[x]) := bytes];
      data := data[x := bytes];
      bh := bh[x := bh[x].(uptodate := true, dirt := true)];
    }
  }
}
