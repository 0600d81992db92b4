/** The blocks of a minix volume: zone bit map, inodes with nine zone numbers, and the tree of direct,
    indirect and double indirect blocks (fs/minix/inode.c, truncate.c, bitmap.c). */
module MinixBlocks {
  import opened Kernel
  import opened Wrappers

  const MAX_BLOCKS := 7 + 512 + 512 * 512

  /** A place where a zone number is kept: in the inode, in its indirect block, in its double indirect block,
      or in a block named there. */
  datatype Place = Top(ino: nat, i: nat) | Ind(ino: nat, i: nat) | Dind(ino: nat, i: nat) | Leaf(ino: nat, i: nat,
                       j: nat)

  function Parent(p: Place): Place
    requires !p.Top?
  {
    match p
    case Ind(n, i) => Top(n, 7)
    case Dind(n, i) => Top(n, 8)
    case Leaf(n, i, j) => Dind(n, i)
  }

  function Index(p: Place): nat {
    match p
    case Leaf(n, i, j) => j
    case _ => p.i
  }

  function Depth(p: Place): nat {
    match p
    case Top(_, _) => 0
    case Leaf(_, _, _) => 2
    case _ => 1
  }

  /** The place names a block of zone numbers, not of bytes of the file. */
  predicate Inner(p: Place) {
    match p
    case Top(_, i) => i == 7 || i == 8
    case Dind(_, _) => true
    case _ => false
  }

  /** Where block `k` of a file is named. */
  function DataPlace(n: nat, k: nat): Place {
    if k < 7 then Top(n, k) else if k < 7 + 512 then Ind(n, k - 7)
    else Leaf(n, (k - 519) / 512, (k - 519) % 512)
  }

  /** `owner` records the place that names a block in use. */
  datatype Vol = Vol(first: nat, nzones: nat, zmap: seq<seq<bool>>, zones: map<nat, seq<nat>>, sizes: map<nat, nat>,
                     blocks: map<nat, seq<Byte>>, owner: map<nat, Place>)

  // ---------------------------------------------------------------- words and zone numbers

  /** A block read as unsigned shorts. */
  function Word(d: seq<Byte>, i: nat): nat
    requires |d| == BLOCK_SIZE && i < 512
  {
    (d[2 * i] as int) + 256 * (d[2 * i + 1] as int)
  }

  function SetWord(d: seq<Byte>, i: nat, w: nat): seq<Byte>
    requires |d| == BLOCK_SIZE && i < 512 && w < 0x10000
  {
    d[2 * i := w % 256][2 * i + 1 := w / 256]
  }

  lemma WordSet(d: seq<Byte>, i: nat, w: nat, j: nat)
    requires |d| == BLOCK_SIZE && i < 512 && w < 0x10000 && j < 512
    ensures |SetWord(d, i, w)| == BLOCK_SIZE
    ensures Word(SetWord(d, i, w), j) == if j == i then w else Word(d, j)
  {
  }

  lemma WordZero(j: nat)
    requires j < 512
    ensures Word(Zeros(BLOCK_SIZE), j) == 0
  {
  }

  function Zone(v: Vol, n: nat, i: nat): nat {
    if n in v.zones && i < |v.zones[n]| then v.zones[n][i] else 0
  }

  function Entry(v: Vol, b: nat, i: nat): nat {
    if b != 0 && b in v.blocks && |v.blocks[b]| == BLOCK_SIZE && i < 512 then Word(v.blocks[b], i) else 0
  }

  /** The zone number kept at a place; 0 for none. */
  function Ptr(v: Vol, p: Place): nat
    decreases Depth(p)
  {
    if p.Top? then Zone(v, p.ino, p.i) else Entry(v, Ptr(v, Parent(p)), Index(p))
  }

  // ---------------------------------------------------------------- bit map

  predicate InZone(v: Vol, b: nat) {
    v.first <= b < v.nzones
  }

  /** The bit of a block and the block of a bit: minix_free_block and minix_new_block compute them. */
  function MapOf(v: Vol, b: nat): nat
    requires b >= v.first
  {
    (b - v.first + 1) / 8192
  }

  function BitOf(v: Vol, b: nat): nat
    requires b >= v.first
  {
    (b - v.first + 1) % 8192
  }

  function BlockOf(v: Vol, i: nat, j: nat): int {
    j + i * 8192 + v.first - 1
  }

  lemma BlockBitInverse(v: Vol, b: nat, i: nat, j: nat)
    requires b >= v.first && j < 8192
    ensures BlockOf(v, MapOf(v, b), BitOf(v, b)) == b && BitOf(v, b) < 8192
    ensures BlockOf(v, i, j) == b <==> i == MapOf(v, b) && j == BitOf(v, b)
    ensures BlockOf(v, 0, 1) == v.first && BlockOf(v, 1, 0) == v.first + 8191
  {
  }

  predicate Geometry(v: Vol) {
    && 1 <= v.first <= v.nzones <= 0x10000 && |v.zmap| <= 8
    && (forall i | 0 <= i < |v.zmap| :: |v.zmap[i]| == 8192)
    && v.nzones - v.first < 8192 * |v.zmap|
  }

  predicate Bit(v: Vol, b: nat)
    requires Geometry(v) && InZone(v, b)
  {
    v.zmap[MapOf(v, b)][BitOf(v, b)]
  }

  function WithBit(v: Vol, b: nat, x: bool): seq<seq<bool>>
    requires Geometry(v) && InZone(v, b)
  {
    v.zmap[MapOf(v, b) := v.zmap[MapOf(v, b)][BitOf(v, b) := x]]
  }

  lemma BitSet(v: Vol, v': Vol, b: nat, x: bool)
    requires Geometry(v) && InZone(v, b) && v'.first == v.first && v'.nzones == v.nzones && v'.zmap == WithBit(v, b, x)
    ensures Geometry(v') && forall c | InZone(v, c) :: Bit(v', c) == if c == b then x else Bit(v, c)
  {
  }

  // ---------------------------------------------------------------- what holds of every volume

  /** Bits that stand for no zone are set. */
  predicate Padded(v: Vol) {
    Geometry(v) && forall i, j | 0 <= i < |v.zmap| && 0 <= j < 8192 && !v.zmap[i][j] ::
        v.first <= BlockOf(v, i, j) < v.nzones
  }

  /** A zone has its bit set exactly when it is in use. */
  ghost predicate Mapped(v: Vol) {
    Padded(v) && forall b | InZone(v, b) :: Bit(v, b) <==> b in v.owner
  }

  /** Every block in use is named at one place only. */
  ghost predicate Owned(v: Vol) {
    && (forall b | b in v.owner :: InZone(v, b) && Ptr(v, v.owner[b]) == b)
    && (forall p: Place :: Ptr(v, p) != 0 ==> Names(v, Ptr(v, p), p))
  }

  predicate Names(v: Vol, b: nat, p: Place) {
    b in v.owner && v.owner[b] == p
  }

  ghost predicate Stored(v: Vol) {
    && 1 <= v.first
    && (forall b | InZone(v, b) :: b in v.blocks && |v.blocks[b]| == BLOCK_SIZE)
    && (forall n | n in v.zones :: |v.zones[n]| == 9)
    && v.zones.Keys == v.sizes.Keys
  }

  function ByteAt(v: Vol, b: nat, k: nat): Byte {
    if b in v.blocks && k < |v.blocks[b]| then v.blocks[b][k] else 0
  }

  /** Byte `pos` of a file: zero where no block is. */
  function FileByte(v: Vol, n: nat, pos: nat): Byte {
    var b := Ptr(v, DataPlace(n, pos / BLOCK_SIZE));
    if b == 0 then 0 else ByteAt(v, b, pos % BLOCK_SIZE)
  }

  /** Number `i` in block `b` is `r`; where there is no block it is zero. */
  predicate Numbers(v: Vol, b: nat, i: nat, r: nat) {
    if b != 0 && b in v.blocks && |v.blocks[b]| == BLOCK_SIZE && i < 512 then
      r % 256 == v.blocks[b][2 * i] as int && r / 256 == v.blocks[b][2 * i + 1] as int
    else r == 0
  }

  /** The layout of a file: seven zone numbers in the inode, 512 in the block its eighth zone names, and 512 in each of
      the 512 blocks that the block of its ninth zone names; a number is two bytes, the low one first. */
  lemma FileLayout(v: Vol, n: nat, k: nat)
    requires k < MAX_BLOCKS
    ensures var r := Ptr(v, DataPlace(n, k));
            if k < 7 then r == Zone(v, n, k)
            else if k < 519 then Numbers(v, Zone(v, n, 7), k - 7, r)
            else var c := Ptr(v, Dind(n, (k - 519) / 512));
              Numbers(v, Zone(v, n, 8), (k - 519) / 512, c) && Numbers(v, c, (k - 519) % 512, r)
  {
    var p := DataPlace(n, k);
    if 7 <= k < 519 {
      assert Ptr(v, Top(n, 7)) == Zone(v, n, 7);
    } else if k >= 519 {
      assert Ptr(v, Top(n, 8)) == Zone(v, n, 8);
      assert Parent(p) == Dind(n, (k - 519) / 512);
    }
  }

  /** And the bytes of each block are 1024 bytes of the file. */
  lemma BlockBytes(v: Vol, n: nat, k: nat, i: nat)
    requires i < 1024
    ensures FileByte(v, n, 1024 * k + i) == if Ptr(v, DataPlace(n, k)) == 0 then 0
                                            else ByteAt(v, Ptr(v, DataPlace(n, k)), i)
  {
    hide Ptr, DataPlace, ByteAt;
    assert (1024 * k + i) / BLOCK_SIZE == k && (1024 * k + i) % BLOCK_SIZE == i;
  }

  ghost predicate ZeroTail(v: Vol) {
    forall n, pos | n in v.sizes && pos >= v.sizes[n] :: FileByte(v, n, pos) == 0
  }

  ghost predicate Good(v: Vol) {
    Stored(v) && Mapped(v) && Owned(v) && ZeroTail(v)
  }

  // ---------------------------------------------------------------- changing one zone number

  /** There is room for a zone number at the place. */
  predicate Present(v: Vol, p: Place) {
    if p.Top? then p.ino in v.zones && p.i < |v.zones[p.ino]|
    else
      && Ptr(v, Parent(p)) != 0 && Ptr(v, Parent(p)) in v.blocks && |v.blocks[Ptr(v, Parent(p))]| == BLOCK_SIZE
      && Index(p) < 512
  }

  function SetPtr(v: Vol, p: Place, b: nat): Vol
    requires Present(v, p) && b < 0x10000
  {
    if p.Top? then var z: seq<nat> := v.zones[p.ino][p.i := b]; v.(zones := v.zones[p.ino := z])
    else var c := Ptr(v, Parent(p)); v.(blocks := v.blocks[c := SetWord(v.blocks[c], Index(p), b)])
  }

  /** A new, cleared block is named at an empty place. */
  function Attach(v: Vol, p: Place, b: nat): Vol
    requires Present(v, p) && Geometry(v) && InZone(v, b)
  {
    var v1 := SetPtr(v, p, b);
    v1.(zmap := WithBit(v, b, true), blocks := v1.blocks[b := Zeros(BLOCK_SIZE)], owner := v.owner[b := p])
  }

  function Cleared(v: Vol, b: nat): Vol
    requires Geometry(v) && InZone(v, b)
  {
    v.(zmap := WithBit(v, b, false), owner := v.owner - {b})
  }

  /** The block named at a place is freed and forgotten there. */
  function Detach(v: Vol, p: Place): Vol
    requires Present(v, p) && Geometry(v) && InZone(v, Ptr(v, p))
  {
    SetPtr(v, p, 0).(zmap := WithBit(v, Ptr(v, p), false), owner := v.owner - {Ptr(v, p)})
  }

  lemma SamePlace(p: Place, q: Place)
    requires !p.Top? && !q.Top? && Parent(p) == Parent(q) && Index(p) == Index(q)
    ensures p == q
  {
  }

  /** Only the place itself reads differently, if nothing hangs below it before and after. */
  lemma {:induction false} AttachPtr(v: Vol, p: Place, b: nat, q: Place)
    requires Stored(v) && Owned(v) && Geometry(v) && Present(v, p) && Ptr(v, p) == 0 && InZone(v, b) && b !in v.owner
    ensures Ptr(Attach(v, p, b), q) == if q == p then b else Ptr(v, q)
    decreases Depth(q)
  {
    assert b < 0x10000;
    hide Geometry;
    var v' := Attach(v, p, b);
    if !q.Top? {
      var r := Parent(q);
      AttachPtr(v, p, b, r);
      assert Ptr(v, r) != 0 ==> Names(v, Ptr(v, r), r);
      if r == p {
        if Index(q) < 512 { WordZero(Index(q)); }
      } else if !p.Top? && Ptr(v, r) == Ptr(v, Parent(p)) && Ptr(v, r) != 0 && Index(q) < 512 {
        assert Names(v, Ptr(v, r), Parent(p));
        WordSet(v.blocks[Ptr(v, r)], Index(p), b, Index(q));
      }
    }
  }

  lemma {:induction false} DetachPtr(v: Vol, p: Place, q: Place)
    requires Stored(v) && Owned(v) && Geometry(v) && Present(v, p) && Ptr(v, p) != 0 && InZone(v, Ptr(v, p))
    requires forall r: Place | !r.Top? && Parent(r) == p :: Ptr(v, r) == 0
    ensures Ptr(Detach(v, p), q) == if q == p then 0 else Ptr(v, q)
    decreases Depth(q)
  {
    hide Geometry;
    var v' := Detach(v, p);
    if !q.Top? {
      var r := Parent(q);
      DetachPtr(v, p, r);
      assert Ptr(v, r) != 0 ==> Names(v, Ptr(v, r), r);
      if r != p && !p.Top? && Ptr(v, r) == Ptr(v, Parent(p)) && Ptr(v, r) != 0 && Index(q) < 512 {
        assert Names(v, Ptr(v, r), Parent(p));
        WordSet(v.blocks[Ptr(v, r)], Index(p), 0, Index(q));
      }
    }
  }

  lemma AttachKeeps(v: Vol, p: Place, b: nat)
    requires Good(v) && Present(v, p) && Ptr(v, p) == 0 && InZone(v, b) && b !in v.owner
    ensures Geometry(v) && b < 0x10000
    ensures Good(Attach(v, p, b)) && Grown(v, Attach(v, p, b), p.ino) && Ptr(Attach(v, p, b), p) == b
  {
    assert Geometry(v) && b < 0x10000;
    hide FileByte, Bit, Padded, Geometry, Ptr, Present, SetPtr;
    AttachOwned(v, p, b);
    AttachMapped(v, p, b);
    AttachStored(v, p, b);
    AttachGrown(v, p, b);
    hide Attach, Owned, Mapped, Stored;
  }

  lemma AttachGrown(v: Vol, p: Place, b: nat)
    requires Stored(v) && Owned(v) && Geometry(v) && Present(v, p) && Ptr(v, p) == 0 && InZone(v, b) && b !in v.owner
    ensures Grown(v, Attach(v, p, b), p.ino)
  {
    hide FileByte, Geometry, Ptr, Present, SetPtr;
    AttachOwned(v, p, b);
    AttachStored(v, p, b);
    forall n, pos ensures FileByte(Attach(v, p, b), n, pos) == FileByte(v, n, pos) { AttachByte(v, p, b, n, pos); }
    hide Attach, Owned, Stored;
  }

  lemma AttachOwned(v: Vol, p: Place, b: nat)
    requires Stored(v) && Owned(v) && Geometry(v) && Present(v, p) && Ptr(v, p) == 0 && InZone(v, b) && b !in v.owner
    ensures Owned(Attach(v, p, b)) && forall q :: Ptr(Attach(v, p, b), q) == if q == p then b else Ptr(v, q)
  {
    var v' := Attach(v, p, b);
    forall q ensures Ptr(v', q) == if q == p then b else Ptr(v, q) { AttachPtr(v, p, b, q); }
    hide Ptr, Geometry;
    forall q: Place | Ptr(v', q) != 0 ensures Names(v', Ptr(v', q), q) {
      assert q != p ==> Names(v, Ptr(v, q), q);
    }
  }

  lemma AttachMapped(v: Vol, p: Place, b: nat)
    requires Mapped(v) && Present(v, p) && InZone(v, b)
    ensures Mapped(Attach(v, p, b))
  {
    hide Ptr;
    BitSet(v, Attach(v, p, b), b, true);
  }

  lemma AttachStored(v: Vol, p: Place, b: nat)
    requires Stored(v) && Present(v, p) && Geometry(v) && InZone(v, b)
    ensures var v' := Attach(v, p, b); Stored(v') && v'.sizes == v.sizes && v'.first == v.first && v'.nzones == v.nzones
  {
  }

  /** Bytes live in blocks that no word is stored in. */
  lemma DataApart(v: Vol, p: Place, q: Place)
    requires Owned(v) && !Inner(q) && !p.Top? && Ptr(v, q) != 0
    ensures Ptr(v, q) != Ptr(v, Parent(p))
  {
  }

  lemma AttachByte(v: Vol, p: Place, b: nat, n: nat, pos: nat)
    requires Stored(v) && Owned(v) && Geometry(v) && Present(v, p) && Ptr(v, p) == 0 && InZone(v, b) && b !in v.owner
    ensures FileByte(Attach(v, p, b), n, pos) == FileByte(v, n, pos)
  {
    var q := DataPlace(n, pos / BLOCK_SIZE);
    AttachPtr(v, p, b, q);
    hide Ptr, Geometry;
    if !p.Top? && Ptr(v, q) != 0 { DataApart(v, p, q); }
    assert Ptr(v, q) != 0 ==> Names(v, Ptr(v, q), q);
  }

  /** Blocks have been added to one file; all files read as before. */
  ghost predicate Grown(v: Vol, v': Vol, n: nat) {
    && v'.sizes == v.sizes && v'.first == v.first && v'.nzones == v.nzones
    && (forall q: Place :: Ptr(v', q) == Ptr(v, q) || (Ptr(v, q) == 0 && q.ino == n))
    && (forall m, pos :: FileByte(v', m, pos) == FileByte(v, m, pos))
  }

  lemma GrownTwice(v: Vol, v1: Vol, v2: Vol, n: nat)
    requires Grown(v, v1, n) && Grown(v1, v2, n)
    ensures Grown(v, v2, n)
  {
  }

  // ---------------------------------------------------------------- freeing

  /** `q` hangs below `p`. */
  predicate Under(q: Place, p: Place)
    decreases Depth(q)
  {
    !q.Top? && (Parent(q) == p || Under(Parent(q), p))
  }

  function Child(p: Place, i: nat): (q: Place)
    requires Inner(p)
    ensures !q.Top? && Parent(q) == p && Index(q) == i && q.ino == p.ino && (Inner(q) <==> p == Top(p.ino, 8))
  {
    match p
    case Top(n, k) => if k == 7 then Ind(n, i) else Dind(n, i)
    case Dind(n, k) => Leaf(n, k, i)
  }

  predicate Below(q: Place, p: Option<Place>, n: nat) {
    q.ino == n && (p.Some? ==> Under(q, p.value))
  }

  /** Some blocks of file `n` (below place `p` if one is given) have been freed, nothing else has changed. */
  ghost predicate Pruned(v: Vol, v': Vol, p: Option<Place>, n: nat) {
    && v'.first == v.first && v'.nzones == v.nzones && v'.zones.Keys == v.zones.Keys
    && (forall q: Place :: Ptr(v', q) == Ptr(v, q) || (Ptr(v', q) == 0 && Below(q, p, n)))
    && (forall q: Place :: Ptr(v', q) != 0 && !Inner(q) ==> SameBlock(v, v', Ptr(v, q)))
  }

  predicate SameBlock(v: Vol, v': Vol, b: nat) {
    b in v.blocks && b in v'.blocks && v'.blocks[b] == v.blocks[b]
  }

  lemma PrunedTwice(v: Vol, v1: Vol, v2: Vol, p: Option<Place>, n: nat)
    requires Pruned(v, v1, p, n) && Pruned(v1, v2, p, n)
    ensures Pruned(v, v2, p, n)
  {
  }

  lemma PrunedWider(v: Vol, v': Vol, p: Place, r: Option<Place>, n: nat)
    requires Pruned(v, v', Some(p), n) && (r.Some? ==> Under(p, r.value))
    ensures Pruned(v, v', r, n)
  {
    hide Ptr, Inner;
    forall q: Place ensures Ptr(v', q) == Ptr(v, q) || (Ptr(v', q) == 0 && Below(q, r, n)) {
      assert Ptr(v', q) == Ptr(v, q) || (Ptr(v', q) == 0 && Below(q, Some(p), n));
      if r.Some? && Under(q, p) { UnderTwice(q, p, r.value); }
    }
  }

  lemma {:induction false} UnderTwice(q: Place, p: Place, r: Place)
    requires Under(q, p) && Under(p, r)
    ensures Under(q, r)
    decreases Depth(q)
  {
    if Parent(q) != p { UnderTwice(Parent(q), p, r); }
  }

  /** Nothing is named below the place. */
  ghost predicate Bare(v: Vol, p: Place) {
    forall r: Place | !r.Top? && Parent(r) == p :: Ptr(v, r) == 0
  }

  lemma DetachPtrs(v: Vol, p: Place)
    requires Stored(v) && Owned(v) && Geometry(v) && Present(v, p) && Ptr(v, p) != 0 && Bare(v, p)
    ensures InZone(v, Ptr(v, p))
    ensures forall q :: Ptr(Detach(v, p), q) == if q == p then 0 else Ptr(v, q)
    ensures forall q: Place | Ptr(Detach(v, p), q) != 0 && !Inner(q) :: SameBlock(v, Detach(v, p), Ptr(v, q))
  {
    assert Names(v, Ptr(v, p), p);
    forall q ensures Ptr(Detach(v, p), q) == if q == p then 0 else Ptr(v, q) { DetachPtr(v, p, q); }
    hide Ptr, Inner, SameBlock, Stored, Owned, Geometry;
    forall q: Place | Ptr(Detach(v, p), q) != 0 && !Inner(q) ensures SameBlock(v, Detach(v, p), Ptr(v, q))
    {
      DetachBlock(v, p, q);
    }
  }

  lemma DetachPrunes(v: Vol, p: Place, r: Option<Place>)
    requires Stored(v) && Owned(v) && Geometry(v) && Present(v, p) && Ptr(v, p) != 0 && Bare(v, p)
    requires r.Some? ==> Under(p, r.value)
    ensures InZone(v, Ptr(v, p)) && Pruned(v, Detach(v, p), r, p.ino)
  {
    hide Geometry, Inner, Under, Ptr, Present, SameBlock, Owned, Stored;
    DetachPtrs(v, p);
    DetachShape(v, p);
  }

  lemma DetachKeeps(v: Vol, p: Place, r: Option<Place>)
    requires Good(v) && Present(v, p) && Ptr(v, p) != 0 && Bare(v, p)
    requires r.Some? ==> Under(p, r.value)
    ensures InZone(v, Ptr(v, p)) && Good(Detach(v, p)) && Detach(v, p).sizes == v.sizes
    ensures Ptr(Detach(v, p), p) == 0 && Pruned(v, Detach(v, p), r, p.ino)
  {
    assert Geometry(v);
    hide FileByte, Bit, Padded, Geometry, Inner, Under, Ptr, Present, SameBlock, Owned, Stored, Pruned;
    DetachPtrs(v, p);
    DetachPrunes(v, p, r);
    DetachMapped(v, p);
    DetachStored(v, p);
    DetachOwned(v, p);
    hide Detach, Mapped;
    var v' := Detach(v, p);
    forall n, pos | n in v'.sizes && pos >= v'.sizes[n] ensures FileByte(v', n, pos) == 0
    {
      PrunedByte(v, v', r, p.ino, n, pos);
    }
  }

  lemma DetachShape(v: Vol, p: Place)
    requires Present(v, p) && Geometry(v) && InZone(v, Ptr(v, p))
    ensures var v' := Detach(v, p); v'.zones.Keys == v.zones.Keys && v'.first == v.first && v'.nzones == v.nzones
  {
  }

  lemma DetachOwned(v: Vol, p: Place)
    requires Owned(v) && Present(v, p) && Ptr(v, p) != 0 && Geometry(v) && InZone(v, Ptr(v, p))
    requires forall q :: Ptr(Detach(v, p), q) == if q == p then 0 else Ptr(v, q)
    ensures Owned(Detach(v, p))
  {
    hide Ptr, Geometry;
    assert Names(v, Ptr(v, p), p);
    var v' := Detach(v, p);
    forall q: Place | Ptr(v', q) != 0 ensures Names(v', Ptr(v', q), q) {
      assert Names(v, Ptr(v, q), q);
    }
  }

  lemma DetachMapped(v: Vol, p: Place)
    requires Mapped(v) && Present(v, p) && InZone(v, Ptr(v, p))
    ensures Mapped(Detach(v, p))
  {
    hide Ptr;
    var v', b := Detach(v, p), Ptr(v, p);
    BitSet(v, v', b, false);
    forall i, j | 0 <= i < |v'.zmap| && 0 <= j < 8192 && !v'.zmap[i][j] ensures v.first <= BlockOf(v, i, j) < v.nzones {
      BlockBitInverse(v, b, i, j);
    }
  }

  lemma DetachStored(v: Vol, p: Place)
    requires Stored(v) && Present(v, p) && Geometry(v) && InZone(v, Ptr(v, p))
    ensures Stored(Detach(v, p)) && Detach(v, p).sizes == v.sizes
  {
  }

  lemma DetachBlock(v: Vol, p: Place, q: Place)
    requires Stored(v) && Owned(v) && Geometry(v) && Present(v, p) && InZone(v, Ptr(v, p)) && !Inner(q)
             && Ptr(v, q) != 0
    ensures SameBlock(v, Detach(v, p), Ptr(v, q))
  {
  }

  /** A byte of a pruned file is what it was or zero; bytes of other files are what they were. */
  lemma PrunedByte(v: Vol, v': Vol, p: Option<Place>, n: nat, m: nat, pos: nat)
    requires Pruned(v, v', p, n)
    ensures FileByte(v', m, pos) == FileByte(v, m, pos) || (m == n && FileByte(v', m, pos) == 0)
  {
  }

  // ---------------------------------------------------------------- writing bytes

  function Overlay(d: seq<Byte>, at: nat, bytes: seq<Byte>): seq<Byte>
    requires at + |bytes| <= |d|
  {
    d[..at] + bytes + d[at + |bytes|..]
  }

  function Max(a: nat, b: nat): nat {
    if a < b then b else a
  }

  predicate CanPatch(v: Vol, n: nat, pos: nat, bytes: seq<Byte>) {
    var b := Ptr(v, DataPlace(n, pos / BLOCK_SIZE));
    n in v.sizes && b != 0 && b in v.blocks && |v.blocks[b]| == BLOCK_SIZE && pos % BLOCK_SIZE + |bytes| <= BLOCK_SIZE
  }

  /** Bytes go into the block of their position; the file grows to hold them. */
  function Patch(v: Vol, n: nat, pos: nat, bytes: seq<Byte>): Vol
    requires CanPatch(v, n, pos, bytes)
  {
    var b := Ptr(v, DataPlace(n, pos / BLOCK_SIZE));
    v.(blocks := v.blocks[b := Overlay(v.blocks[b], pos % BLOCK_SIZE, bytes)],
       sizes := v.sizes[n := Max(v.sizes[n], pos + |bytes|)])
  }

  lemma {:induction false} PatchPtr(v: Vol, n: nat, pos: nat, bytes: seq<Byte>, q: Place)
    requires Owned(v) && CanPatch(v, n, pos, bytes)
    ensures Ptr(Patch(v, n, pos, bytes), q) == Ptr(v, q)
    decreases Depth(q)
  {
    if !q.Top? {
      PatchPtr(v, n, pos, bytes, Parent(q));
      DataApart(v, q, DataPlace(n, pos / BLOCK_SIZE));
    }
  }

  /** Exactly the bytes written change, in exactly one file. */
  lemma PatchByte(v: Vol, n: nat, pos: nat, bytes: seq<Byte>, m: nat, x: nat)
    requires Owned(v) && CanPatch(v, n, pos, bytes)
    ensures FileByte(Patch(v, n, pos, bytes), m, x) ==
            if m == n && pos <= x < pos + |bytes| then bytes[x - pos] else FileByte(v, m, x)
  {
    var p, q := DataPlace(n, pos / BLOCK_SIZE), DataPlace(m, x / BLOCK_SIZE);
    PatchPtr(v, n, pos, bytes, q);
    hide Ptr;
    assert Names(v, Ptr(v, p), p) && (Ptr(v, q) != 0 ==> Names(v, Ptr(v, q), q));
    DataPlaceDistinct(n, pos / BLOCK_SIZE, m, x / BLOCK_SIZE);
    hide DataPlace;
    if p == q {
      assert x - pos == x % BLOCK_SIZE - pos % BLOCK_SIZE;
    } else {
      assert m == n ==> !(pos <= x < pos + |bytes|);
    }
  }

  lemma DataPlaceDistinct(n: nat, k: nat, m: nat, l: nat)
    ensures DataPlace(n, k) == DataPlace(m, l) ==> n == m && k == l
  {
  }

  /** Different blocks of files lie in different blocks of the disk. */
  lemma DistinctBlocks(v: Vol, n: nat, k: nat, m: nat, l: nat)
    requires Good(v) && (n != m || k != l) && Ptr(v, DataPlace(n, k)) != 0
    ensures Ptr(v, DataPlace(n, k)) != Ptr(v, DataPlace(m, l))
  {
  }

  lemma PatchKeeps(v: Vol, n: nat, pos: nat, bytes: seq<Byte>)
    requires Good(v) && CanPatch(v, n, pos, bytes)
    ensures Good(Patch(v, n, pos, bytes))
    ensures forall q :: Ptr(Patch(v, n, pos, bytes), q) == Ptr(v, q)
  {
    var v' := Patch(v, n, pos, bytes);
    forall q ensures Ptr(v', q) == Ptr(v, q) { PatchPtr(v, n, pos, bytes, q); }
    hide Ptr, FileByte, Padded;
    SameMapped(v, v');
    SameOwned(v, v');
    assert ZeroTail(v') by {
      hide Mapped;
      forall m, x | m in v'.sizes && x >= v'.sizes[m] ensures FileByte(v', m, x) == 0
      {
        PatchByte(v, n, pos, bytes, m, x);
      }
    }
  }

  // ---------------------------------------------------------------- counting

  ghost function FreeZones(v: Vol): set<nat>
    requires Geometry(v)
  {
    set b | b in Zones(v.first, v.nzones) && InZone(v, b) && !Bit(v, b)
  }

  function Zones(lo: nat, hi: nat): (s: set<nat>)
    ensures forall b: nat :: b in s <==> lo <= b < hi
    decreases hi
  {
    if hi <= lo then {} else Zones(lo, hi - 1) + {hi - 1}
  }

  /** The blocks of one file: its data and the blocks of zone numbers. */
  function TreeBlocks(v: Vol, n: nat): set<nat> {
    set b | b in v.owner && v.owner[b].ino == n
  }

  lemma ReachedIsTree(v: Vol, n: nat, b: nat)
    requires Owned(v) && b != 0
    ensures b in TreeBlocks(v, n) <==> exists p: Place :: p.ino == n && Ptr(v, p) == b
  {
  }

  /** A file has lost all its blocks and nothing else has been freed. */
  ghost predicate Emptied(v: Vol, v': Vol, n: nat) {
    Good(v) && Good(v') && Pruned(v, v', None, n) && forall p: Place | p.ino == n :: Ptr(v', p) == 0
  }

  /** Each block of the file has become free, once. */
  lemma AllFreed(v: Vol, v': Vol, n: nat)
    requires Geometry(v) && Geometry(v') && Emptied(v, v', n)
    ensures FreeZones(v') == FreeZones(v) + TreeBlocks(v, n)
    ensures |FreeZones(v')| == |FreeZones(v)| + |TreeBlocks(v, n)|
  {
    hide *;
    forall b: nat
      ensures b in FreeZones(v') <==> b in FreeZones(v) || b in TreeBlocks(v, n)
      ensures b !in FreeZones(v) || b !in TreeBlocks(v, n)
    {
      FreedZone(v, v', n, b);
    }
    assert FreeZones(v) !! TreeBlocks(v, n);
  }

  lemma FreedZone(v: Vol, v': Vol, n: nat, b: nat)
    requires Geometry(v) && Geometry(v') && Emptied(v, v', n)
    ensures b in FreeZones(v') <==> b in FreeZones(v) || b in TreeBlocks(v, n)
    ensures b !in FreeZones(v) || b !in TreeBlocks(v, n)
  {
    hide ZeroTail, Ptr, Padded;
    IsFree(v);
    IsFree(v');
    TreeInZone(v, n);
    if InZone(v, b) { StillOwned(v, v', n, b); }
    hide Mapped, Owned, Stored, FreeZones;
  }

  lemma IsFree(v: Vol)
    requires Mapped(v)
    ensures forall b :: b in FreeZones(v) <==> InZone(v, b) && b !in v.owner
  {
  }

  lemma TreeInZone(v: Vol, n: nat)
    requires Good(v)
    ensures forall b | b in TreeBlocks(v, n) :: InZone(v, b)
  {
  }

  lemma StillOwned(v: Vol, v': Vol, n: nat, b: nat)
    requires Owned(v) && Owned(v') && Pruned(v, v', None, n) && (forall p: Place | p.ino == n :: Ptr(v', p) == 0)
    requires Stored(v) && Stored(v') && InZone(v, b)
    ensures b in v'.owner <==> b in v.owner && b !in TreeBlocks(v, n)
  {
  }

  // ---------------------------------------------------------------- small facts

  ghost predicate Full(v: Vol) {
    forall b | InZone(v, b) :: b in v.owner
  }

  lemma GrownRefl(v: Vol, n: nat)
    ensures Grown(v, v, n)
  {
  }

  lemma PrunedRefl(v: Vol, p: Option<Place>, n: nat)
    requires Good(v)
    ensures Pruned(v, v, p, n)
  {
  }

  lemma SlotFacts(v: Vol, n: nat, i: nat)
    requires Good(v) && n in v.sizes && i < 9
    ensures n in v.zones && |v.zones[n]| == 9 && Present(v, Top(n, i)) && Ptr(v, Top(n, i)) == v.zones[n][i]
  {
  }

  /** A block of zone numbers is in the store and can be written. */
  /** Naming a new block in a block of zone numbers. */
  lemma AttachWord(v: Vol, p: Place, r: nat)
    requires Good(v) && !p.Top? && Index(p) < 512 && Ptr(v, Parent(p)) != 0 && Present(v, p)
    requires Geometry(v) && InZone(v, r) && r !in v.owner
    ensures var b := Ptr(v, Parent(p));
            b in v.blocks && |v.blocks[b]| == BLOCK_SIZE && r < 0x10000 && b != r
            && Attach(v, p, r) == v.(zmap := WithBit(v, r, true), owner := v.owner[r := p],
                                     blocks := v.blocks[r := Zeros(BLOCK_SIZE)][b := SetWord(v.blocks[b], Index(p), r)])
  {
    hide SetWord, WithBit, Zeros, Mapped, ZeroTail;
    assert Names(v, Ptr(v, Parent(p)), Parent(p));
  }

  lemma WordFacts(v: Vol, p: Place)
    requires Good(v) && !p.Top? && Index(p) < 512 && Ptr(v, Parent(p)) != 0
    ensures var b := Ptr(v, Parent(p));
            InZone(v, b) && b in v.owner && b in v.blocks && |v.blocks[b]| == BLOCK_SIZE && Present(v, p)
            && Ptr(v, p) == Word(v.blocks[b], Index(p))
  {
  }

  lemma UsedFacts(v: Vol, p: Place)
    requires Good(v) && Ptr(v, p) != 0
    ensures Geometry(v) && InZone(v, Ptr(v, p)) && Bit(v, Ptr(v, p)) && Ptr(v, p) in v.blocks
    ensures |v.blocks[Ptr(v, p)]| == BLOCK_SIZE
  {
  }

  lemma {:induction false} NoPtrs(v: Vol, q: Place)
    requires forall n, i :: Zone(v, n, i) == 0
    ensures Ptr(v, q) == 0
    decreases Depth(q)
  {
    if !q.Top? { NoPtrs(v, Parent(q)); }
  }

  lemma FreshGood(v: Vol)
    requires Geometry(v) && v.zones == map[] && v.sizes == map[] && v.owner == map[]
    requires forall b | InZone(v, b) :: b in v.blocks && v.blocks[b] == Zeros(BLOCK_SIZE)
    requires forall i, j | 0 <= i < |v.zmap| && 0 <= j < 8192 ::
               v.zmap[i][j] == !(v.first <= BlockOf(v, i, j) < v.nzones)
    ensures Good(v)
  {
    forall q ensures Ptr(v, q) == 0 { NoPtrs(v, q); }
    forall b | InZone(v, b) ensures !Bit(v, b) { BlockBitInverse(v, b, MapOf(v, b), BitOf(v, b)); }
  }

  lemma {:induction false} AddInodePtr(v: Vol, v': Vol, n: nat, q: Place)
    requires n !in v.zones && v'.blocks == v.blocks && v'.zones == v.zones[n := [0, 0, 0, 0, 0, 0, 0, 0, 0]]
    ensures Ptr(v', q) == Ptr(v, q)
    decreases Depth(q)
  {
    if !q.Top? { AddInodePtr(v, v', n, Parent(q)); }
  }

  function WithInode(v: Vol, n: nat): Vol {
    v.(zones := v.zones[n := [0, 0, 0, 0, 0, 0, 0, 0, 0]], sizes := v.sizes[n := 0])
  }

  /** The bit map and the owners depend on nothing else. */
  lemma SameMapped(v: Vol, v': Vol)
    requires Mapped(v) && v'.zmap == v.zmap && v'.first == v.first && v'.nzones == v.nzones && v'.owner == v.owner
    ensures Mapped(v')
  {
  }

  lemma SameOwned(v: Vol, v': Vol)
    requires Owned(v) && v'.first == v.first && v'.nzones == v.nzones && v'.owner == v.owner
    requires forall q :: Ptr(v', q) == Ptr(v, q)
    ensures Owned(v')
  {
  }

  lemma AddInodeGood(v: Vol, n: nat)
    requires Good(v) && n !in v.sizes
    ensures Good(WithInode(v, n)) && forall m, x :: FileByte(WithInode(v, n), m, x) == FileByte(v, m, x)
  {
    var v' := WithInode(v, n);
    AddInodeOwned(v, n);
    forall m: nat, x: nat ensures FileByte(v', m, x) == FileByte(v, m, x) && (m == n ==> FileByte(v, m, x) == 0) {
      AddInodeByte(v, n, m, x);
    }
    SameMapped(v, v');
    hide Owned, Mapped, Ptr, FileByte, Padded;
  }

  lemma AddInodeByte(v: Vol, n: nat, m: nat, x: nat)
    requires Stored(v) && n !in v.zones
    ensures FileByte(WithInode(v, n), m, x) == FileByte(v, m, x) && (m == n ==> FileByte(v, m, x) == 0)
  {
    AddInodePtr(v, WithInode(v, n), n, DataPlace(m, x / BLOCK_SIZE));
    if m == n { NoInodePtr(v, DataPlace(n, x / BLOCK_SIZE)); }
  }

  lemma AddInodeOwned(v: Vol, n: nat)
    requires Stored(v) && Owned(v) && n !in v.sizes
    ensures Owned(WithInode(v, n))
  {
    forall q ensures Ptr(WithInode(v, n), q) == Ptr(v, q) { AddInodePtr(v, WithInode(v, n), n, q); }
    SameOwned(v, WithInode(v, n));
  }

  lemma {:induction false} NoInodePtr(v: Vol, q: Place)
    requires q.ino !in v.zones
    ensures Ptr(v, q) == 0
    decreases Depth(q)
  {
    if !q.Top? { NoInodePtr(v, Parent(q)); }
  }

  /** How minix_free_ind leaves the volume: on success the block at `p` is free but still named. */
  ghost predicate Freed(w: Vol, v: Vol, p: Place, ok: bool) {
    if !ok || Ptr(w, p) == 0 then v == w && (ok ==> Bare(w, p))
    else Bare(w, p) && Geometry(w) && InZone(w, Ptr(w, p)) && v == Cleared(w, Ptr(w, p))
  }

  lemma FreedNot(w: Vol, v: Vol, p: Place)
    requires Freed(w, v, p, false)
    ensures v == w
  {
  }

  lemma LeafBare(v: Vol, p: Place)
    requires !Inner(p)
    ensures Bare(v, p)
  {
  }

  lemma EmptyBare(v: Vol, p: Place)
    requires Ptr(v, p) == 0
    ensures Bare(v, p)
  {
  }

  lemma BareByWords(v: Vol, p: Place)
    requires Inner(p) && forall k | 0 <= k < 512 :: Ptr(v, Child(p, k)) == 0
    ensures Bare(v, p)
  {
    forall r: Place | !r.Top? && Parent(r) == p ensures Ptr(v, r) == 0 {
      if Index(r) < 512 {
        SamePlace(r, Child(p, Index(r)));
      } else {
        assert Ptr(v, r) == Entry(v, Ptr(v, p), Index(r));
      }
    }
  }

  lemma ChildUnder(p: Place, i: nat)
    requires Inner(p)
    ensures Under(Child(p, i), p)
  {
  }

  lemma PrunedZero(v: Vol, v': Vol, p: Option<Place>, n: nat, q: Place)
    requires Pruned(v, v', p, n) && Ptr(v, q) == 0
    ensures Ptr(v', q) == 0
  {
  }

  /** The place itself is not below itself. */
  lemma PrunedSelf(v: Vol, v': Vol, p: Place)
    requires Pruned(v, v', Some(p), p.ino)
    ensures Ptr(v', p) == Ptr(v, p)
  {
    hide Ptr;
    UnderDeeper(p, p);
    assert Ptr(v', p) == Ptr(v, p) || Below(p, Some(p), p.ino);
  }

  /** Nor is anything above it. */
  lemma PrunedStays(v: Vol, v': Vol, p: Place)
    requires Pruned(v, v', Some(p), p.ino) && !p.Top?
    ensures Ptr(v', Parent(p)) == Ptr(v, Parent(p))
  {
    hide Ptr;
    if Under(Parent(p), p) { UnderDeeper(Parent(p), p); }
    assert Ptr(v', Parent(p)) == Ptr(v, Parent(p)) || Below(Parent(p), Some(p), p.ino);
  }

  lemma {:induction false} UnderDeeper(q: Place, p: Place)
    ensures Under(q, p) ==> Depth(q) > Depth(p)
    decreases Depth(q)
  {
    if !q.Top? { UnderDeeper(Parent(q), p); }
  }

  /** Writing zero over zero. */
  lemma SameZones(v: Vol, v': Vol, n: nat, i: nat)
    requires Good(v) && n in v.sizes && i < 9 && v.zones[n][i] == 0
    requires v' == v.(zones := v.zones[n := v.zones[n][i := 0]])
    ensures v' == v
  {
    hide Mapped, Owned, ZeroTail;
    assert v.zones[n][i := 0] == v.zones[n];
  }

  lemma {:induction false} NothingLeft(v: Vol, n: nat, q: Place)
    requires Stored(v) && (forall i | 0 <= i < 9 :: Ptr(v, Top(n, i)) == 0) && q.ino == n
    ensures Ptr(v, q) == 0
    decreases Depth(q)
  {
  }

  lemma {:induction false} SizePtr(v: Vol, v': Vol, q: Place)
    requires v'.zones == v.zones && v'.blocks == v.blocks
    ensures Ptr(v', q) == Ptr(v, q)
    decreases Depth(q)
  {
    if !q.Top? { SizePtr(v, v', Parent(q)); }
  }

  function Shortened(v: Vol, n: nat): Vol {
    v.(sizes := v.sizes[n := 0])
  }

  /** The last lines of minix_truncate. */
  lemma EmptiedAll(v: Vol, w: Vol, n: nat)
    requires Good(v) && Good(w) && Pruned(v, w, None, n) && n in w.sizes
    requires forall i | 0 <= i < 9 :: Ptr(w, Top(n, i)) == 0
    ensures Emptied(v, Shortened(w, n), n)
    ensures forall m, x :: FileByte(Shortened(w, n), m, x) == FileByte(w, m, x)
  {
    assert Stored(w);
    hide Pruned, Good, FileByte, Stored;
    var v' := Shortened(w, n);
    forall q: Place ensures Ptr(v', q) == Ptr(w, q) && (q.ino == n ==> Ptr(w, q) == 0) {
      SizePtr(w, v', q);
      if q.ino == n { NothingLeft(w, n, q); }
    }
    forall m: nat, x: nat ensures FileByte(v', m, x) == FileByte(w, m, x) { ShortenedByte(w, n, m, x); }
    ShortenedGood(w, n);
    ShortenedPruned(v, w, n);
  }

  lemma EmptiedGood(v: Vol, v': Vol, n: nat)
    requires Emptied(v, v', n)
    ensures Good(v')
  {
  }

  lemma ShortenedPruned(v: Vol, w: Vol, n: nat)
    requires Pruned(v, w, None, n) && forall q :: Ptr(Shortened(w, n), q) == Ptr(w, q)
    ensures Pruned(v, Shortened(w, n), None, n)
  {
  }

  lemma ShortenedGood(w: Vol, n: nat)
    requires Good(w) && n in w.sizes && forall q: Place :: Ptr(Shortened(w, n), q) == Ptr(w, q) && (q.ino == n ==>
               Ptr(w, q) == 0)
    ensures Good(Shortened(w, n))
  {
    var v' := Shortened(w, n);
    hide FileByte, Ptr;
    SameMapped(w, v');
    SameOwned(w, v');
    hide Mapped, Owned;
    forall m: nat, x: nat | m in v'.sizes && x >= v'.sizes[m] ensures FileByte(v', m, x) == 0
    {
      ShortenedByte(w, n, m, x);
    }
  }

  lemma ShortenedByte(w: Vol, n: nat, m: nat, x: nat)
    requires forall q: Place :: Ptr(Shortened(w, n), q) == Ptr(w, q) && (q.ino == n ==> Ptr(w, q) == 0)
    ensures FileByte(Shortened(w, n), m, x) == FileByte(w, m, x) && (m == n ==> FileByte(w, m, x) == 0)
  {
  }

  // ---------------------------------------------------------------- files as byte arrays

  /** `k` bytes have been written at `start` of file `n`; everything else reads as before. */
  ghost predicate Written(v: Vol, v': Vol, n: nat, start: nat, bytes: seq<Byte>, k: nat) {
    && k <= |bytes| && n in v.sizes
    && v'.sizes == v.sizes[n := if k == 0 then v.sizes[n] else Max(v.sizes[n], start + k)]
    && forall m: nat, x: nat :: FileByte(v', m, x) == if m == n && start <= x < start + k then bytes[x - start]
         else FileByte(v, m, x)
  }

  lemma WrittenNone(v: Vol, n: nat, start: nat, bytes: seq<Byte>)
    requires n in v.sizes
    ensures Written(v, v, n, start, bytes, 0)
  {
  }

  lemma GrownSizes(v: Vol, v': Vol, n: nat)
    requires Grown(v, v', n)
    ensures v'.sizes == v.sizes
  {
  }

  /** Bytes of one block. */
  lemma InBlock(v: Vol, n: nat, pos: nat, i: nat)
    requires pos % BLOCK_SIZE + i < BLOCK_SIZE
    ensures (pos + i) / BLOCK_SIZE == pos / BLOCK_SIZE
    ensures var b := Ptr(v, DataPlace(n, pos / BLOCK_SIZE));
            FileByte(v, n, pos + i) == if b == 0 then 0 else ByteAt(v, b, pos % BLOCK_SIZE + i)
  {
  }

  lemma WrittenGrown(v: Vol, v1: Vol, v2: Vol, n: nat, start: nat, bytes: seq<Byte>, k: nat)
    requires Written(v, v1, n, start, bytes, k) && Grown(v1, v2, n)
    ensures Written(v, v2, n, start, bytes, k)
  {
  }

  lemma WrittenPatch(v: Vol, v1: Vol, n: nat, start: nat, bytes: seq<Byte>, k: nat, part: seq<Byte>)
    requires Written(v, v1, n, start, bytes, k) && Good(v1) && part != [] && k + |part| <= |bytes|
    requires part == bytes[k..k + |part|] && CanPatch(v1, n, start + k, part)
    ensures Written(v, Patch(v1, n, start + k, part), n, start, bytes, k + |part|)
  {
    hide Ptr, Good, FileByte, Patch, CanPatch;
    PatchSizes(v1, n, start + k, part);
    var v2 := Patch(v1, n, start + k, part);
    forall m: nat, x: nat
      ensures FileByte(v2, m, x) == if m == n && start <= x < start + (k + |part|) then bytes[x - start]
                else FileByte(v, m, x)
    {
      WrittenByte(v, v1, n, start, bytes, k, part, m, x);
    }
  }

  lemma PatchSizes(v: Vol, n: nat, pos: nat, bytes: seq<Byte>)
    requires CanPatch(v, n, pos, bytes)
    ensures n in v.sizes && Patch(v, n, pos, bytes).sizes == v.sizes[n := Max(v.sizes[n], pos + |bytes|)]
  {
  }

  lemma WrittenByte(v: Vol, v1: Vol, n: nat, start: nat, bytes: seq<Byte>, k: nat, part: seq<Byte>, m: nat, x: nat)
    requires Written(v, v1, n, start, bytes, k) && Good(v1) && k + |part| <= |bytes|
    requires part == bytes[k..k + |part|] && CanPatch(v1, n, start + k, part)
    ensures FileByte(Patch(v1, n, start + k, part), m, x) ==
            if m == n && start <= x < start + (k + |part|) then bytes[x - start] else FileByte(v, m, x)
  {
    hide Ptr, Good, FileByte, Patch, CanPatch;
    PatchByteGood(v1, n, start + k, part, m, x);
    assert FileByte(v1, m, x) == if m == n && start <= x < start + k then bytes[x - start] else FileByte(v, m, x);
  }

  lemma PatchByteGood(v: Vol, n: nat, pos: nat, bytes: seq<Byte>, m: nat, x: nat)
    requires Good(v) && CanPatch(v, n, pos, bytes)
    ensures FileByte(Patch(v, n, pos, bytes), m, x) ==
            if m == n && pos <= x < pos + |bytes| then bytes[x - pos] else FileByte(v, m, x)
  {
    hide FileByte, Mapped, Stored, ZeroTail, Ptr;
    PatchByte(v, n, pos, bytes, m, x);
  }
}
