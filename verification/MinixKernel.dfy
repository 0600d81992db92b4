/** minix_new_block, minix_free_block, _bmap, minix_truncate, minix_file_read and minix_file_write
    (fs/minix), above a cache that reads what was last stored. */
module MinixKernel {
  import opened Kernel
  import opened Wrappers
  import opened MinixBlocks

  class MinixVolume {
    const first: nat
    const nzones: nat
    var zmap: seq<seq<bool>>
    var zones: map<nat, seq<nat>>
    var sizes: map<nat, nat>
    var blocks: map<nat, seq<Byte>>
    ghost var owner: map<nat, Place>
    ghost var refusals: nat            // how often a block was not freed because its buffer was in use

    ghost function View(): Vol
      reads this
    {
      Vol(first, nzones, zmap, zones, sizes, blocks, owner)
    }

    ghost predicate Valid()
      reads this
    {
      Good(View())
    }

    /** A fresh volume without files. */
    constructor (first: nat, nzones: nat, maps: nat)
      requires 1 <= first <= nzones <= 0x10000 && maps <= 8 && nzones - first < 8192 * maps
      ensures Valid() && this.first == first && this.nzones == nzones && sizes == map[]
      ensures forall b | InZone(View(), b) :: b !in owner
    {
      this.first, this.nzones := first, nzones;
      zmap := seq(maps, i => seq(8192, j => !(first <= j + i * 8192 + first - 1 < nzones)));
      blocks := map b | b in Zones(first, nzones) :: Zeros(BLOCK_SIZE);
      zones, sizes, owner, refusals := map[], map[], map[], 0;
      new;
      FreshGood(View());
    }

    /** A new inode has no blocks (minix_new_inode). */
    method AddInode(n: nat)
      requires Valid() && n !in sizes
      modifies this
      ensures Valid() && sizes == old(sizes)[n := 0]
      ensures forall m, x :: FileByte(View(), m, x) == FileByte(old(View()), m, x)
    {
      AddInodeGood(View(), n);
      hide Good, FileByte;
      zones, sizes := zones[n := [0, 0, 0, 0, 0, 0, 0, 0, 0]], sizes[n := 0];
    }

    /** find_first_zero: 32 bits at a time, then the lowest clear bit of the word. */
    method FindFirstZero(m: seq<bool>) returns (j: nat)
      requires |m| == 8192
      ensures j <= 8192 && (j < 8192 ==> !m[j]) && forall k | 0 <= k < j :: m[k]
    {
      j := 0;
      while j < 8192
        invariant j % 32 == 0 && j <= 8192 && forall k | 0 <= k < j :: m[k]
      {
        var d := 0;
        while d < 32 && m[j + d]
          invariant d <= 32 && forall k | 0 <= k < j + d :: m[k]
        {
          d := d + 1;
        }
        if d < 32 { return j + d; }
        j := j + 32;
      }
    }

    /** minix_free_block; it gives up when somebody else uses the buffer.  `count` is what get_hash_table makes the
        b_count of the block's buffer, 0 if it has none.  The bit it clears is always set. */
    method FreeBlock(block: nat, count: nat) returns (ok: bool)
      requires Geometry(View()) && InZone(View(), block) && Bit(View(), block)
      modifies this
      ensures ok <==> count <= 1
      ensures View() == if ok then Cleared(old(View()), block) else old(View())
      ensures refusals == old(refusals) + if ok then 0 else 1
    {
      if count > 1 {
        refusals := refusals + 1;
        return false;
      }
      var zone := block - first + 1;
      var bit := zone % 8192;
      zone := zone / 8192;
      zmap := zmap[zone := zmap[zone][bit := false]];
      owner := owner - {block};
      return true;
    }

    /** minix_new_block: the first clear bit of the maps, the block cleared. */
    method NewBlock() returns (r: nat)
      requires Valid()
      modifies this
      ensures r == 0 ==> View() == old(View()) && Full(View())
      ensures r != 0 ==> InZone(old(View()), r) && r !in old(owner)
      ensures r != 0 ==> forall b | first <= b < r :: b in old(owner)
      ensures r != 0 ==>
                View() == old(View()).(zmap := WithBit(old(View()), r, true),
                  blocks := old(blocks)[r := Zeros(BLOCK_SIZE)])
    {
      ghost var v := View();
      assert Mapped(v) && Stored(v);
      hide Owned, ZeroTail, Stored;
      var j, i := 8192, 0;
      while i < |zmap|
        invariant 0 <= i <= |zmap| && j == 8192
        invariant forall k, l | 0 <= k < i && 0 <= l < 8192 :: v.zmap[k][l]
        modifies {}
      {
        j := FindFirstZero(zmap[i]);
        if j < 8192 { break; }
        i := i + 1;
      }
      if i >= |zmap| || j >= 8192 {
        forall b | InZone(v, b) ensures b in owner { assert Bit(v, b); }
        return 0;
      }
      r := j + i * 8192 + first - 1;
      BlockBitInverse(v, r, i, j);
      assert !Bit(v, r);
      forall b | first <= b < r ensures b in owner { assert Bit(v, b); }
      zmap := zmap[i := zmap[i][j := true]];
      blocks := blocks[r := Zeros(BLOCK_SIZE)];
    }

    /** The inode slot `i`, filled with a new block if asked for. */
    method ZoneSlot(n: nat, i: nat, create: bool) returns (r: nat)
      requires Valid() && n in sizes && i < 9
      modifies this
      ensures Valid() && Grown(old(View()), View(), n) && r == Ptr(View(), Top(n, i))
      ensures !create ==> View() == old(View())
      ensures create && r == 0 ==> Full(View())
    {
      hide Good, Grown, Full;
      ghost var v, p := View(), Top(n, i);
      SlotFacts(v, n, i);
      GrownRefl(v, n);
      r := zones[n][i];
      if create && r == 0 {
        r := NewBlock();
        if r != 0 {
          AttachKeeps(v, p, r);
          var z: seq<nat> := zones[n][i := r];
          zones := zones[n := z];
          owner := owner[r := p];
          assert View() == Attach(v, p, r);
        }
      }
    }

    /** Word `i` of the block of zone numbers `b`, filled with a new block if asked for. */
    method WordSlot(b: nat, i: nat, create: bool, ghost p: Place) returns (r: nat)
      requires Valid() && !p.Top? && Index(p) == i < 512 && b == Ptr(View(), Parent(p)) != 0
      modifies this
      ensures Valid() && Grown(old(View()), View(), p.ino) && r == Ptr(View(), p)
      ensures !create ==> View() == old(View())
      ensures create && r == 0 ==> Full(View())
    {
      hide Good, Grown, Full, SetWord, Word, Ptr, Geometry, WithBit, Zeros, Attach;
      ghost var v := View();
      WordFacts(v, p);
      GrownRefl(v, p.ino);
      r := Word(blocks[b], i);
      if create && r == 0 {
        r := NewBlock();
        if r != 0 {
          AttachKeeps(v, p, r);
          AttachWord(v, p, r);
          blocks := blocks[b := SetWord(blocks[b], i, r)];
          owner := owner[r := p];
          assert View() == Attach(v, p, r);
        }
      }
    }

    /** _bmap: the block of the disk that holds block `block` of the file. */
    method Bmap(n: nat, block: nat, create: bool) returns (r: nat)
      requires Valid() && n in sizes && block < MAX_BLOCKS
      modifies this
      ensures Valid() && Grown(old(View()), View(), n) && r == Ptr(View(), DataPlace(n, block))
      ensures !create ==> View() == old(View())
      ensures create && r == 0 ==> Full(View())
    {
      ghost var v := View();
      hide Good, Grown, Full;
      if block < 7 {
        r := ZoneSlot(n, block, create);
        return;
      }
      var k := block - 7;
      if k < 512 {
        var b := ZoneSlot(n, 7, create);
        if b == 0 { return 0; }
        ghost var v1 := View();
        r := WordSlot(b, k, create, Ind(n, k));
        GrownTwice(v, v1, View(), n);
        return;
      }
      k := k - 512;
      var b := ZoneSlot(n, 8, create);
      if b == 0 { return 0; }
      ghost var v1 := View();
      b := WordSlot(b, k / 512, create, Dind(n, k / 512));
      ghost var v2 := View();
      GrownTwice(v, v1, v2, n);
      if b == 0 { return 0; }
      r := WordSlot(b, k % 512, create, Leaf(n, k / 512, k % 512));
      GrownTwice(v, v2, View(), n);
    }

    /** One turn of the loops of minix_free_ind: the block named in word `i` is freed and the word zeroed,
        unless it is busy. */
    method FreeWord(block: nat, i: nat, ghost p: Place) returns (done: bool)
      requires Valid() && Inner(p) && p != Top(p.ino, 8) && i < 512 && block == Ptr(View(), p) != 0
      modifies this
      ensures Valid() && Pruned(old(View()), View(), Some(p), p.ino) && sizes == old(sizes)
      ensures done ==> Ptr(View(), Child(p, i)) == 0
      ensures refusals >= old(refusals) && (refusals == old(refusals) <==> done)
    {
      hide Good, Pruned, Ptr, Geometry, SetWord, Word, WithBit, Under, Bit;
      ghost var v, q := View(), Child(p, i);
      WordFacts(v, q);
      PrunedRefl(v, Some(p), p.ino);
      var z := Word(blocks[block], i);
      if z == 0 { return true; }
      UsedFacts(v, q);
      var count: nat := *;
      done := FreeBlock(z, count);
      if done {
        LeafBare(v, q);
        ChildUnder(p, i);
        DetachKeeps(v, q, Some(p));
        blocks := blocks[block := SetWord(blocks[block], i, 0)];
        assert View() == Detach(v, q);
      }
    }

    /** minix_free_ind.  When it succeeds the block itself is free too, while its number is still in place
        for the caller to remove: `w` is the volume before that last step. */
    method FreeInd(block: nat, ghost p: Place) returns (ok: bool, ghost w: Vol)
      requires Valid() && Inner(p) && p != Top(p.ino, 8) && block == Ptr(View(), p)
      modifies this
      ensures Good(w) && Pruned(old(View()), w, Some(p), p.ino) && w.sizes == old(sizes)
      ensures Freed(w, View(), p, ok)
      ensures refusals >= old(refusals) && (refusals == old(refusals) <==> ok)
    {
      hide Good, Pruned, Ptr, Bare, Geometry;
      ghost var v := View();
      PrunedRefl(v, Some(p), p.ino);
      w := v;
      if block == 0 {
        EmptyBare(v, p);
        return true, w;
      }
      var busy := false;
      for i := 0 to 512
        invariant Valid() && Pruned(v, View(), Some(p), p.ino) && sizes == v.sizes && block == Ptr(View(), p)
        invariant !busy ==> forall k | 0 <= k < i :: Ptr(View(), Child(p, k)) == 0
        invariant refusals >= old(refusals) && (refusals == old(refusals) <==> !busy)
      {
        ghost var v1 := View();
        var done := FreeWord(block, i, p);
        if !done { busy := true; }
        PrunedTwice(v, v1, View(), Some(p), p.ino);
        PrunedSelf(v1, View(), p);
        if !busy {
          forall k | 0 <= k < i ensures Ptr(View(), Child(p, k)) == 0
          {
            PrunedZero(v1, View(), Some(p), p.ino, Child(p, k));
          }
        }
      }
      w := View();
      if busy { return false, w; }
      BareByWords(w, p);
      UsedFacts(w, p);
      var count: nat := *;
      ok := FreeBlock(block, count);
    }

    /** One turn of the loop of minix_free_dind. */
    method FreeDindWord(block: nat, i: nat, ghost n: nat) returns (done: bool)
      requires Valid() && i < 512 && block == Ptr(View(), Top(n, 8)) != 0
      modifies this
      ensures Valid() && Pruned(old(View()), View(), Some(Top(n, 8)), n) && sizes == old(sizes)
      ensures done ==> Ptr(View(), Dind(n, i)) == 0
      ensures refusals >= old(refusals) && (refusals == old(refusals) <==> done)
    {
      hide Good, Pruned, Ptr, Geometry, SetWord, Word, WithBit, Bit;
      ghost var v, q := View(), Dind(n, i);
      WordFacts(v, q);
      PrunedRefl(v, Some(Top(n, 8)), n);
      var z := Word(blocks[block], i);
      if z == 0 { return true; }
      ghost var w;
      done, w := FreeInd(z, q);
      PrunedWider(v, w, q, Some(Top(n, 8)), n);
      PrunedStays(v, w, q);
      if done {
        PrunedSelf(v, w, q);
        WordFacts(w, q);
        DetachKeeps(w, q, Some(Top(n, 8)));
        blocks := blocks[block := SetWord(blocks[block], i, 0)];
        assert View() == Detach(w, q);
        PrunedTwice(v, w, View(), Some(Top(n, 8)), n);
      }
    }

    /** minix_free_dind */
    method FreeDind(block: nat, ghost n: nat) returns (ok: bool, ghost w: Vol)
      requires Valid() && block == Ptr(View(), Top(n, 8))
      modifies this
      ensures Good(w) && Pruned(old(View()), w, Some(Top(n, 8)), n) && w.sizes == old(sizes)
      ensures Freed(w, View(), Top(n, 8), ok)
      ensures refusals >= old(refusals) && (refusals == old(refusals) <==> ok)
    {
      hide Good, Pruned, Ptr, Bare, Geometry;
      ghost var v, p := View(), Top(n, 8);
      PrunedRefl(v, Some(p), n);
      w := v;
      if block == 0 {
        EmptyBare(v, p);
        return true, w;
      }
      var busy := false;
      for i := 0 to 512
        invariant Valid() && Pruned(v, View(), Some(p), n) && sizes == v.sizes && block == Ptr(View(), p)
        invariant !busy ==> forall k | 0 <= k < i :: Ptr(View(), Child(p, k)) == 0
        invariant refusals >= old(refusals) && (refusals == old(refusals) <==> !busy)
      {
        ghost var v1 := View();
        var done := FreeDindWord(block, i, n);
        if !done { busy := true; }
        PrunedTwice(v, v1, View(), Some(p), n);
        PrunedSelf(v1, View(), p);
        if !busy {
          forall k | 0 <= k < i ensures Ptr(View(), Child(p, k)) == 0
          {
            PrunedZero(v1, View(), Some(p), n, Child(p, k));
          }
        }
      }
      w := View();
      if busy { return false, w; }
      BareByWords(w, p);
      UsedFacts(w, p);
      var count: nat := *;
      ok := FreeBlock(block, count);
    }

    /** An inode slot whose blocks below have been freed is zeroed. */
    method ClearSlot(n: nat, i: nat, ghost w: Vol)
      requires Good(w) && Freed(w, View(), Top(n, i), true) && n in w.sizes && i < 9
      modifies this
      ensures Valid() && Pruned(w, View(), None, n) && sizes == w.sizes && Ptr(View(), Top(n, i)) == 0
      ensures refusals == old(refusals)
    {
      hide Good, Pruned, Ptr, Bare, Geometry, WithBit;
      ghost var p := Top(n, i);
      SlotFacts(w, n, i);
      PrunedRefl(w, None, n);
      ghost var b := Ptr(w, p);
      var z: seq<nat> := zones[n][i := 0];
      zones := zones[n := z];
      if b == 0 {
        SameZones(w, View(), n, i);
      } else {
        DetachKeeps(w, p, None);
        assert View() == Detach(w, p);
      }
    }

    /** One of the seven direct blocks. */
    method FreeDirect(n: nat, i: nat) returns (done: bool)
      requires Valid() && n in sizes && i < 7
      modifies this
      ensures Valid() && Pruned(old(View()), View(), None, n) && sizes == old(sizes)
      ensures done ==> Ptr(View(), Top(n, i)) == 0
      ensures refusals >= old(refusals) && (refusals == old(refusals) <==> done)
    {
      hide Good, Pruned, Ptr, Bare, Geometry, Bit, WithBit;
      ghost var v, p := View(), Top(n, i);
      SlotFacts(v, n, i);
      PrunedRefl(v, None, n);
      if zones[n][i] == 0 { return true; }
      UsedFacts(v, p);
      LeafBare(v, p);
      var count: nat := *;
      done := FreeBlock(zones[n][i], count);
      if done { ClearSlot(n, i, v); }
    }

    /** The body of minix_truncate from its label `repeat` on. */
    method TruncatePass(n: nat) returns (busy: bool)
      requires Valid() && n in sizes
      modifies this
      ensures Valid() && Pruned(old(View()), View(), None, n) && sizes == old(sizes)
      ensures !busy ==> forall i | 0 <= i < 9 :: Ptr(View(), Top(n, i)) == 0
      ensures refusals >= old(refusals) && (refusals == old(refusals) <==> !busy)
    {
      hide Good, Pruned, Ptr, Bare, Geometry, Freed;
      ghost var v := View();
      PrunedRefl(v, None, n);
      busy := false;
      for i := 0 to 7
        invariant Valid() && Pruned(v, View(), None, n) && sizes == v.sizes
        invariant !busy ==> forall k | 0 <= k < i :: Ptr(View(), Top(n, k)) == 0
        invariant refusals >= old(refusals) && (refusals == old(refusals) <==> !busy)
      {
        ghost var v1 := View();
        var done := FreeDirect(n, i);
        if !done { busy := true; }
        PrunedTwice(v, v1, View(), None, n);
        if !busy {
          forall k | 0 <= k < i ensures Ptr(View(), Top(n, k)) == 0 { PrunedZero(v1, View(), None, n, Top(n, k)); }
        }
      }
      busy := FreeSlot(n, 7, busy, v);
      busy := FreeSlot(n, 8, busy, v);
    }

    /** The two steps of minix_truncate for the indirect blocks. */
    method FreeSlot(n: nat, i: nat, busy: bool, ghost v: Vol) returns (busy': bool)
      requires Valid() && n in sizes && 7 <= i < 9 && Pruned(v, View(), None, n) && sizes == v.sizes
      requires !busy ==> forall k | 0 <= k < i :: Ptr(View(), Top(n, k)) == 0
      modifies this
      ensures Valid() && Pruned(v, View(), None, n) && sizes == v.sizes
      ensures !busy' ==> forall k | 0 <= k < i + 1 :: Ptr(View(), Top(n, k)) == 0
      ensures refusals >= old(refusals) && (busy' <==> busy || refusals > old(refusals))
    {
      hide Good, Pruned, Ptr, Bare, Geometry, Freed;
      ghost var v1 := View();
      SlotFacts(v1, n, i);
      var ok;
      ghost var w;
      if i == 7 { ok, w := FreeInd(zones[n][i], Top(n, i)); } else { ok, w := FreeDind(zones[n][i], n); }
      PrunedWider(v1, w, Top(n, i), None, n);
      PrunedTwice(v, v1, w, None, n);
      busy' := busy;
      if ok {
        ClearSlot(n, i, w);
        PrunedTwice(v, w, View(), None, n);
        PrunedTwice(v1, w, View(), None, n);
      } else {
        FreedNot(w, View(), Top(n, i));
        busy' := true;
      }
      if !busy' {
        forall k | 0 <= k < i ensures Ptr(View(), Top(n, k)) == 0 { PrunedZero(v1, View(), None, n, Top(n, k)); }
      }
    }

    /** minix_truncate of a regular file, directory or link; `patience` bounds the passes that find a buffer busy. */
    method Truncate(n: nat, patience: nat) returns (done: bool)
      requires Valid() && n in sizes
      modifies this
      ensures Valid() && (forall m, x | m != n :: FileByte(View(), m, x) == FileByte(old(View()), m, x))
      ensures sizes == if done then old(sizes)[n := 0] else old(sizes)
      ensures done ==> Emptied(old(View()), View(), n)
      ensures !done ==> refusals >= old(refusals) + patience
    {
      hide Good, Pruned, Ptr, FileByte, Emptied;
      ghost var v := View();
      PrunedRefl(v, None, n);
      var left := patience;
      done := false;
      while left > 0 && !done
        invariant Valid() && Pruned(v, View(), None, n) && sizes == v.sizes
        invariant done ==> forall i | 0 <= i < 9 :: Ptr(View(), Top(n, i)) == 0
        invariant left <= patience && (!done ==> refusals >= old(refusals) + (patience - left))
        decreases left
      {
        left := left - 1;
        ghost var v1 := View();
        var busy := TruncatePass(n);
        PrunedTwice(v, v1, View(), None, n);
        done := !busy;
      }
      ghost var w := View();
      forall m: nat, x: nat | m != n ensures FileByte(w, m, x) == FileByte(v, m, x) { PrunedByte(v, w, None, n, m, x); }
      if done {
        sizes := sizes[n := 0];
        EmptiedAll(v, w, n);
        EmptiedGood(v, View(), n);
      }
    }

    /** minix_file_read: the bytes of the file from `pos` on, zeros where no block is. */
    method FileRead(n: nat, pos: nat, count: nat) returns (bytes: seq<Byte>, pos': nat)
      requires Valid() && n in sizes && sizes[n] <= MAX_BLOCKS * BLOCK_SIZE
      modifies this
      ensures View() == old(View())
      ensures |bytes| == if pos > sizes[n] then 0 else if sizes[n] - pos < count then sizes[n] - pos else count
      ensures forall i | 0 <= i < |bytes| :: bytes[i] == FileByte(View(), n, pos + i)
      ensures pos' == pos + |bytes|
    {
      hide Good, FileByte, Grown, Full;
      ghost var v := View();
      var left := if pos > sizes[n] then 0 else sizes[n] - pos;
      if left > count { left := count; }
      ghost var total := left;
      bytes, pos' := [], pos;
      while left > 0
        invariant View() == v && 0 <= left && left + |bytes| == total && pos' == pos + |bytes|
        invariant total > 0 ==> pos + total <= sizes[n]
        invariant forall i | 0 <= i < |bytes| :: bytes[i] == FileByte(v, n, pos + i)
      {
        var nr := Bmap(n, pos' / BLOCK_SIZE, false);
        var at := pos' % BLOCK_SIZE;
        var chars := if BLOCK_SIZE - at < left then BLOCK_SIZE - at else left;
        var part := seq(chars, _ => 0);
        if nr != 0 {
          UsedFacts(v, DataPlace(n, pos' / BLOCK_SIZE));
          part := blocks[nr][at..at + chars];
        }
        forall i | 0 <= i < chars ensures part[i] == FileByte(v, n, pos' + i) {
          InBlock(v, n, pos', i);
        }
        bytes := bytes + part;
        pos', left := pos' + chars, left - chars;
      }
    }

    /** The bytes of one turn of minix_file_write, and the new size. */
    method PutBytes(n: nat, pos: nat, block: nat, part: seq<Byte>)
      requires CanPatch(View(), n, pos, part) && block == Ptr(View(), DataPlace(n, pos / BLOCK_SIZE))
      modifies this
      ensures View() == Patch(old(View()), n, pos, part)
    {
      hide Ptr;
      blocks := blocks[block := Overlay(blocks[block], pos % BLOCK_SIZE, part)];
      if pos + |part| > sizes[n] {
        sizes := sizes[n := pos + |part|];
      }
      assert sizes == old(sizes)[n := Max(old(sizes)[n], pos + |part|)];
    }

    /** minix_file_write: as many bytes as there is room for, and no other byte of any file changes. */
    method FileWrite(n: nat, fpos: nat, append: bool, bytes: seq<Byte>) returns (written: int, fpos': nat)
      requires Valid() && n in sizes
      requires (if append then sizes[n] else fpos) + |bytes| <= MAX_BLOCKS * BLOCK_SIZE
      modifies this
      ensures Valid()
      ensures var start, k := if append then old(sizes)[n] else fpos, if written < 0 then 0 else written;
              Written(old(View()), View(), n, start, bytes, k) && fpos' == if append then fpos else start + k
      ensures written < |bytes| ==> Full(View()) && (written > 0 || written == -ENOSPC)
    {
      hide Good, Grown, Full, Written, Ptr, Patch, FileByte;
      ghost var v := View();
      var start := if append then sizes[n] else fpos;
      var pos := start;
      written := 0;
      WrittenNone(v, n, start, bytes);
      while written < |bytes|
        invariant Valid() && 0 <= written <= |bytes| && pos == start + written && n in sizes
        invariant Written(v, View(), n, start, bytes, written)
        decreases |bytes| - written
      {
        ghost var v1 := View();
        var block := Bmap(n, pos / BLOCK_SIZE, true);
        WrittenGrown(v, v1, View(), n, start, bytes, written);
        if block == 0 {
          if written == 0 { written := -ENOSPC; }
          break;
        }
        ghost var v2 := View();
        UsedFacts(v2, DataPlace(n, pos / BLOCK_SIZE));
        GrownSizes(v1, v2, n);
        var at := pos % BLOCK_SIZE;
        var c := BLOCK_SIZE - at;
        if c > |bytes| - written { c := |bytes| - written; }
        var part := bytes[written..written + c];
        PatchKeeps(v2, n, start + written, part);
        WrittenPatch(v, v2, n, start, bytes, written, part);
        PatchSizes(v2, n, start + written, part);
        PutBytes(n, pos, block, part);
        pos := pos + c;
        written := written + c;
      }
      fpos' := if append then fpos else pos;
    }
  }
}
