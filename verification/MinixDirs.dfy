/** The directory tree of a minix volume (fs/minix/namei.c): entries, "..", and link counts of directories. */
module MinixDirs {
  import opened Kernel

  const ROOT := 1
  const NAME_LEN := 14
  /** sizeof(struct minix_dir_entry): a 16-bit inode number and the name. */
  const ENTRY_SIZE := 2 + NAME_LEN

  /** `ino` 0 marks an unused entry. */
  datatype Entry = Entry(ino: nat, name: string)
  datatype Node = Dir(nlink: int, slots: seq<Entry>) | File(nlink: int)

  /** `depth` and `at` say how far below the root a directory is and in which slot of its parent it stands. */
  datatype Fs = Fs(nodes: map<nat, Node>, depth: map<nat, nat>, at: map<nat, nat>)

  predicate IsDir(fs: Fs, d: nat) {
    d in fs.nodes && fs.nodes[d].Dir?
  }

  predicate IsFile(fs: Fs, d: nat) {
    d in fs.nodes && fs.nodes[d].File?
  }

  function Slots(fs: Fs, d: nat): seq<Entry> {
    if IsDir(fs, d) then fs.nodes[d].slots else []
  }

  function Size(fs: Fs, d: nat): nat {
    |Slots(fs, d)|
  }

  function Slot(fs: Fs, d: nat, k: nat): Entry {
    if k < Size(fs, d) then Slots(fs, d)[k] else Entry(0, "")
  }

  function Links(fs: Fs, d: nat): int {
    if IsDir(fs, d) then fs.nodes[d].nlink else 0
  }

  /** The inode ".." names. */
  function Parent(fs: Fs, d: nat): nat {
    Slot(fs, d, 1).ino
  }

  // ---------------------------------------------------------------- what holds of every tree

  predicate DirShape(fs: Fs, d: nat) {
    && d != 0 && Size(fs, d) >= 2 && Slot(fs, d, 0) == Entry(d, ".") && Slot(fs, d, 1).name == ".."
    && IsDir(fs, Parent(fs, d))
  }

  ghost predicate Shaped(fs: Fs) {
    && 0 !in fs.nodes && IsDir(fs, ROOT) && Parent(fs, ROOT) == ROOT
    && forall d {:trigger DirShape(fs, d)} | IsDir(fs, d) :: DirShape(fs, d)
  }

  predicate OneDeeper(fs: Fs, d: nat) {
    d in fs.depth && (d != ROOT ==> Parent(fs, d) in fs.depth && fs.depth[d] == fs.depth[Parent(fs, d)] + 1)
  }

  /** Every directory but the root is one deeper than the directory its ".." names. */
  ghost predicate Climbs(fs: Fs) {
    forall d {:trigger OneDeeper(fs, d)} | IsDir(fs, d) :: OneDeeper(fs, d)
  }

  /** Slot `k` of `d` is where the directory `c` stands. */
  predicate StandsAt(fs: Fs, c: nat, d: nat, k: nat) {
    c != ROOT && Parent(fs, c) == d && c in fs.at && fs.at[c] == k
  }

  predicate Listed(fs: Fs, c: nat) {
    c in fs.at && fs.at[c] >= 2 && Slot(fs, Parent(fs, c), fs.at[c]).ino == c
  }

  /** An entry beyond ".." that names a directory is the only one, in the directory its ".." names. */
  predicate EntryFits(fs: Fs, d: nat, k: nat) {
    IsDir(fs, d) && 2 <= k < Size(fs, d) && Slot(fs, d, k).ino != 0 ==>
      Slot(fs, d, k).ino in fs.nodes && (IsDir(fs, Slot(fs, d, k).ino) ==> StandsAt(fs, Slot(fs, d, k).ino, d, k))
  }

  ghost predicate Placed(fs: Fs) {
    && (forall d, k {:trigger EntryFits(fs, d, k)} :: EntryFits(fs, d, k))
    && (forall c {:trigger Listed(fs, c)} | IsDir(fs, c) && c != ROOT :: Listed(fs, c))
  }

  function Subdirs(fs: Fs, d: nat): set<nat> {
    set c | c in fs.nodes && IsDir(fs, c) && c != ROOT && Parent(fs, c) == d
  }

  /** The link count of a directory: its two names and one ".." for each subdirectory. */
  ghost predicate Linked(fs: Fs) {
    forall d {:trigger Subdirs(fs, d)} | IsDir(fs, d) :: Links(fs, d) == 2 + |Subdirs(fs, d)|
  }

  predicate NoClash(fs: Fs, d: nat) {
    forall k, l | 0 <= k < l < Size(fs, d) && Slot(fs, d, k).ino != 0 && Slot(fs, d, l).ino != 0 ::
      Slot(fs, d, k).name != Slot(fs, d, l).name
  }

  /** No name occurs twice in a directory. */
  ghost predicate Named(fs: Fs) {
    forall d {:trigger NoClash(fs, d)} | IsDir(fs, d) :: NoClash(fs, d)
  }

  ghost predicate Tree(fs: Fs) {
    Shaped(fs) && Climbs(fs) && Placed(fs) && Linked(fs) && Named(fs)
  }

  /** Climbing from `x` by ".." meets `c`. */
  predicate Within(fs: Fs, x: nat, c: nat)
    decreases if x in fs.depth then fs.depth[x] else 0
  {
    x == c || (x != ROOT && x in fs.depth && Parent(fs, x) in fs.depth && fs.depth[Parent(fs, x)] < fs.depth[x]
               && Within(fs, Parent(fs, x), c))
  }

  /** ".." leads from every directory to the root. */
  lemma {:induction false} ReachesRoot(fs: Fs, d: nat)
    requires Shaped(fs) && Climbs(fs) && IsDir(fs, d)
    ensures Within(fs, d, ROOT)
    decreases if d in fs.depth then fs.depth[d] else 0
  {
    assert OneDeeper(fs, d) && DirShape(fs, d);
    if d != ROOT { ReachesRoot(fs, Parent(fs, d)); }
  }

  lemma {:induction false} WithinDeeper(fs: Fs, x: nat, c: nat)
    requires Climbs(fs) && IsDir(fs, x) && IsDir(fs, c) && Within(fs, x, c)
    requires Shaped(fs)
    ensures x in fs.depth && c in fs.depth && fs.depth[c] <= fs.depth[x]
    decreases if x in fs.depth then fs.depth[x] else 0
  {
    assert OneDeeper(fs, x) && OneDeeper(fs, c) && DirShape(fs, x);
    if x != c { WithinDeeper(fs, Parent(fs, x), c); }
  }

  // ---------------------------------------------------------------- changing one entry

  function SetSlot(fs: Fs, d: nat, k: nat, e: Entry): Fs
    requires IsDir(fs, d) && k <= Size(fs, d)
  {
    var s := Slots(fs, d);
    fs.(nodes := fs.nodes[d := fs.nodes[d].(slots := if k == |s| then s + [e] else s[k := e])])
  }

  predicate NoName(fs: Fs, d: nat, k: nat, name: string) {
    forall l | 0 <= l < Size(fs, d) && l != k && Slot(fs, d, l).ino != 0 :: Slot(fs, d, l).name != name
  }

  /** The same inodes, directories among them, with the same links and depths. */
  ghost predicate SameNodes(fs: Fs, fs': Fs) {
    && (forall x :: IsDir(fs', x) == IsDir(fs, x) && (x in fs'.nodes <==>
         x in fs.nodes) && Links(fs', x) == Links(fs, x))
    && fs'.depth == fs.depth && fs'.at == fs.at
  }

  ghost predicate OneSlot(fs: Fs, fs': Fs, d: nat, k: nat, e: Entry) {
    && (forall x, l :: Slot(fs', x, l) == if x == d && l == k then e else Slot(fs, x, l))
    && (forall x :: Size(fs', x) == if x == d && k == Size(fs, d) then k + 1 else Size(fs, x))
  }

  lemma SetSlotReads(fs: Fs, d: nat, k: nat, e: Entry)
    requires IsDir(fs, d) && k <= Size(fs, d)
    ensures SameNodes(fs, SetSlot(fs, d, k, e)) && OneSlot(fs, SetSlot(fs, d, k, e), d, k, e)
  {
  }

  /** Entries of files, and unused ones, may change freely. */
  lemma SetSlotKeeps(fs: Fs, d: nat, k: nat, e: Entry)
    requires Tree(fs) && IsDir(fs, d) && 2 <= k <= Size(fs, d) && !IsDir(fs, Slot(fs, d, k).ino)
    requires e.ino == 0 || (IsFile(fs, e.ino) && NoName(fs, d, k, e.name))
    ensures Tree(SetSlot(fs, d, k, e))
  {
    var fs' := SetSlot(fs, d, k, e);
    SetSlotReads(fs, d, k, e);
    hide SetSlot, Slot, Size, Links, Shaped, Climbs, Placed, Linked, Named, OneSlot, SameNodes;
    OneSlotShape(fs, fs', d, k, e);
    OneSlotPlaced(fs, fs', d, k, e);
    OneSlotNamed(fs, fs', d, k, e);
  }

  lemma OneSlotShape(fs: Fs, fs': Fs, d: nat, k: nat, e: Entry)
    requires SameNodes(fs, fs') && OneSlot(fs, fs', d, k, e) && k >= 2
    requires Shaped(fs) && Climbs(fs) && Linked(fs)
    ensures Shaped(fs') && Climbs(fs') && Linked(fs')
  {
    hide Slot, Size, Links;
    forall x | IsDir(fs', x) ensures DirShape(fs', x) && OneDeeper(fs', x)
    {
      assert DirShape(fs, x) && OneDeeper(fs, x);
    }
    forall x ensures Subdirs(fs', x) == Subdirs(fs, x) {}
  }

  lemma OneSlotPlaced(fs: Fs, fs': Fs, d: nat, k: nat, e: Entry)
    requires SameNodes(fs, fs') && OneSlot(fs, fs', d, k, e) && k >= 2
    requires Placed(fs) && Shaped(fs) && !IsDir(fs, Slot(fs, d, k).ino) && (e.ino == 0 || IsFile(fs, e.ino))
    ensures Placed(fs')
  {
    hide Slot, Size, Links;
    forall x, l ensures EntryFits(fs', x, l) { assert EntryFits(fs, x, l); }
    forall c | IsDir(fs', c) && c != ROOT ensures Listed(fs', c) { assert Listed(fs, c); }
  }

  lemma OneSlotNamed(fs: Fs, fs': Fs, d: nat, k: nat, e: Entry)
    requires OneSlot(fs, fs', d, k, e) && SameNodes(fs, fs') && Named(fs) && (e.ino == 0 || NoName(fs, d, k, e.name))
    ensures Named(fs')
  {
    hide Slot, Size, Links;
    forall x | IsDir(fs', x) ensures NoClash(fs', x) { assert IsDir(fs, x) ==> NoClash(fs, x); }
  }

  // ---------------------------------------------------------------- a new directory

  function SetLinks(fs: Fs, d: nat, n: int): Fs
    requires IsDir(fs, d)
  {
    fs.(nodes := fs.nodes[d := fs.nodes[d].(nlink := n)])
  }

  function AddDir(fs: Fs, d: nat, k: nat, c: nat, name: string): Fs
    requires IsDir(fs, d) && k < Size(fs, d) && d in fs.depth
  {
    var fs1 := SetLinks(SetSlot(fs, d, k, Entry(c, name)), d, Links(fs, d) + 1);
    fs1.(nodes := fs1.nodes[c := Dir(2, [Entry(c, "."), Entry(d, "..")])],
         depth := fs.depth[c := fs.depth[d] + 1], at := fs.at[c := k])
  }

  ghost predicate DirAdded(fs: Fs, fs': Fs, d: nat, k: nat, c: nat, name: string) {
    && c != 0 && c !in fs.nodes && IsDir(fs, d) && 2 <= k < Size(fs, d) && Slot(fs, d, k).ino == 0 && d in fs.depth
    && (forall x :: IsDir(fs', x) == (x == c || IsDir(fs, x)) && (x in fs'.nodes <==> x == c || x in fs.nodes))
    && (forall x :: Links(fs', x) == if x == c then 2 else if x == d then Links(fs, d) + 1 else Links(fs, x))
    && (forall x :: Size(fs', x) == if x == c then 2 else Size(fs, x))
    && (forall x, i ::
          Slot(fs', x, i) == if x == c then NewSlot(c, d, i)
                             else if x == d && i == k then Entry(c, name)
                             else Slot(fs, x, i))
    && fs'.depth == fs.depth[c := fs.depth[d] + 1] && fs'.at == fs.at[c := k]
  }

  function NewSlot(c: nat, d: nat, i: nat): Entry {
    if i == 0 then Entry(c, ".") else if i == 1 then Entry(d, "..") else Entry(0, "")
  }

  lemma AddDirKeeps(fs: Fs, d: nat, k: nat, c: nat, name: string)
    requires Tree(fs) && c != 0 && c !in fs.nodes && IsDir(fs, d) && 2 <= k < Size(fs, d) && Slot(fs, d, k).ino == 0
    requires NoName(fs, d, k, name)
    ensures d in fs.depth && Tree(AddDir(fs, d, k, c, name)) && DirAdded(fs, AddDir(fs, d, k, c, name), d, k, c, name)
  {
    assert OneDeeper(fs, d);
    var fs' := AddDir(fs, d, k, c, name);
    assert DirAdded(fs, fs', d, k, c, name) by { hide Tree; }
    hide AddDir, Slot, Size, Links, Shaped, Climbs, Placed, Linked, Named, DirAdded;
    AddDirShaped(fs, fs', d, k, c, name);
    AddDirPlaced(fs, fs', d, k, c, name);
    AddDirLinked(fs, fs', d, k, c, name);
    AddDirNamed(fs, fs', d, k, c, name);
  }

  lemma DirAddedFacts(fs: Fs, fs': Fs, d: nat, k: nat, c: nat, name: string)
    requires DirAdded(fs, fs', d, k, c, name)
    ensures IsDir(fs', c) && Parent(fs', c) == d && Hollow(fs', c) && Links(fs', d) == Links(fs, d) + 1
    ensures Slot(fs', d, k) == Entry(c, name)
  {
  }

  lemma AddDirShaped(fs: Fs, fs': Fs, d: nat, k: nat, c: nat, name: string)
    requires DirAdded(fs, fs', d, k, c, name) && Shaped(fs) && Climbs(fs)
    ensures Shaped(fs') && Climbs(fs')
  {
    hide Slot, Size, Links;
    forall x | IsDir(fs', x) ensures DirShape(fs', x) && OneDeeper(fs', x) {
      assert DirShape(fs, d);
      assert x != c ==> DirShape(fs, x) && OneDeeper(fs, x);
    }
  }

  lemma AddDirPlaced(fs: Fs, fs': Fs, d: nat, k: nat, c: nat, name: string)
    requires DirAdded(fs, fs', d, k, c, name) && Placed(fs) && Shaped(fs)
    ensures Placed(fs')
  {
    hide Slot, Size, Links;
    forall x, l ensures EntryFits(fs', x, l) { assert EntryFits(fs, x, l); }
    forall x | IsDir(fs', x) && x != ROOT ensures Listed(fs', x) { assert x != c ==> Listed(fs, x) && DirShape(fs, x); }
  }

  lemma AddDirLinked(fs: Fs, fs': Fs, d: nat, k: nat, c: nat, name: string)
    requires DirAdded(fs, fs', d, k, c, name) && Linked(fs) && Shaped(fs)
    ensures Linked(fs')
  {
    hide Slot, Size, Links;
    assert DirShape(fs, d);
    forall x: nat ensures c !in Subdirs(fs, x) && Subdirs(fs', x) == if x == c then {}
         else if x == d then Subdirs(fs, d) + {c} else Subdirs(fs, x) {
      forall y | y in fs.nodes && IsDir(fs, y) ensures Parent(fs', y) == Parent(fs, y) != c { assert DirShape(fs, y); }
    }
    forall x | IsDir(fs', x) ensures Links(fs', x) == 2 + |Subdirs(fs', x)| {
      assert x != c ==> Links(fs, x) == 2 + |Subdirs(fs, x)|;
    }
  }

  lemma AddDirNamed(fs: Fs, fs': Fs, d: nat, k: nat, c: nat, name: string)
    requires DirAdded(fs, fs', d, k, c, name) && Named(fs) && NoName(fs, d, k, name)
    ensures Named(fs')
  {
    hide Slot, Size, Links;
    forall x | IsDir(fs', x) ensures NoClash(fs', x) { assert IsDir(fs, x) ==> NoClash(fs, x); }
  }

  // ---------------------------------------------------------------- a directory goes

  /** i_size of a directory. */
  function Bytes(fs: Fs, d: nat): nat {
    Size(fs, d) * ENTRY_SIZE
  }

  /** A directory takes another entry if one is unused, its last block has room, or a block can be found for it. */
  predicate CanAdd(fs: Fs, d: nat, name: string, room: bool) {
    && name != ""
    && (room || Bytes(fs, d) % BLOCK_SIZE != 0 || exists k :: 0 <= k < Size(fs, d) && Slot(fs, d, k).ino == 0)
  }

  /** A block holds 64 entries, and each lies in one block. */
  lemma EntriesInBlocks(i: nat)
    ensures BLOCK_SIZE == 64 * ENTRY_SIZE
    ensures i * ENTRY_SIZE / BLOCK_SIZE == i / 64 && i * ENTRY_SIZE % BLOCK_SIZE == i % 64 * ENTRY_SIZE
  {
  }

  ghost predicate Hollow(fs: Fs, c: nat) {
    forall i | 2 <= i < Size(fs, c) :: Slot(fs, c, i).ino == 0
  }

  function RemoveDir(fs: Fs, d: nat, k: nat): Fs
    requires IsDir(fs, d) && k < Size(fs, d)
  {
    var c := Slot(fs, d, k).ino;
    var fs1 := SetLinks(SetSlot(fs, d, k, Entry(0, Slot(fs, d, k).name)), d, Links(fs, d) - 1);
    fs1.(nodes := fs1.nodes - {c})
  }

  ghost predicate DirRemoved(fs: Fs, fs': Fs, d: nat, k: nat, c: nat) {
    && IsDir(fs, c) && IsDir(fs, d) && 2 <= k < Size(fs, d) && Slot(fs, d, k).ino == c && Hollow(fs, c) && c != d
    && (forall x :: IsDir(fs', x) == (x != c && IsDir(fs, x)) && (x in fs'.nodes <==> x != c && x in fs.nodes))
    && (forall x | x != c :: Links(fs', x) == if x == d then Links(fs, d) - 1 else Links(fs, x))
    && (forall x | x != c :: Size(fs', x) == Size(fs, x))
    && (forall x, i | x != c :: Slot(fs', x, i) == if x == d && i == k then Entry(0, Slot(fs, d, k).name)
         else Slot(fs, x, i))
    && fs'.depth == fs.depth && fs'.at == fs.at
  }

  lemma StandsFacts(fs: Fs, d: nat, k: nat)
    requires Tree(fs) && IsDir(fs, d) && 2 <= k < Size(fs, d) && IsDir(fs, Slot(fs, d, k).ino)
    ensures var c := Slot(fs, d, k).ino; c != ROOT && Parent(fs, c) == d && c != d && c in fs.at && fs.at[c] == k
  {
    hide Slot, Size, Links, Linked, Named;
    var c := Slot(fs, d, k).ino;
    assert EntryFits(fs, d, k) && DirShape(fs, c) && OneDeeper(fs, c);
  }

  lemma RemoveDirKeeps(fs: Fs, d: nat, k: nat)
    requires Tree(fs) && IsDir(fs, d) && 2 <= k < Size(fs, d) && IsDir(fs, Slot(fs, d, k).ino)
             && Hollow(fs, Slot(fs, d, k).ino)
    ensures Tree(RemoveDir(fs, d, k)) && Links(fs, Slot(fs, d, k).ino) == 2
  {
    var c, fs' := Slot(fs, d, k).ino, RemoveDir(fs, d, k);
    StandsFacts(fs, d, k);
    assert DirRemoved(fs, fs', d, k, c) by { hide Tree; }
    hide RemoveDir, Slot, Size, Shaped, Climbs, Placed, Links, Hollow, Named, DirRemoved;
    NoSubdirs(fs, c);
    assert Links(fs, c) == 2 + |Subdirs(fs, c)|;
    hide Linked;
    RemoveDirShaped(fs, fs', d, k, c);
    RemoveDirPlaced(fs, fs', d, k, c);
    RemoveDirLinked(fs, fs', d, k, c);
    RemoveDirNamed(fs, fs', d, k, c);
  }

  /** A directory without entries is the parent of none. */
  lemma NoSubdirs(fs: Fs, c: nat)
    requires Placed(fs) && Shaped(fs) && Hollow(fs, c)
    ensures Subdirs(fs, c) == {}
  {
    hide Slot, Size;
    if x :| x in Subdirs(fs, c) {
      assert Listed(fs, x);
      HollowSlot(fs, c, fs.at[x]);
      assert false;
    }
  }

  lemma HollowSlot(fs: Fs, c: nat, i: nat)
    requires Hollow(fs, c) && i >= 2
    ensures Slot(fs, c, i).ino == 0
  {
  }

  lemma RemoveDirShaped(fs: Fs, fs': Fs, d: nat, k: nat, c: nat)
    requires DirRemoved(fs, fs', d, k, c) && Shaped(fs) && Climbs(fs) && Placed(fs) && c != ROOT
    ensures Shaped(fs') && Climbs(fs')
  {
    hide Slot, Size, Links;
    NoSubdirs(fs, c);
    forall x | IsDir(fs', x) ensures DirShape(fs', x) && OneDeeper(fs', x) {
      assert DirShape(fs, x) && OneDeeper(fs, x);
      assert x != ROOT && Parent(fs, x) == c ==> x in Subdirs(fs, c);
    }
  }

  lemma RemoveDirPlaced(fs: Fs, fs': Fs, d: nat, k: nat, c: nat)
    requires DirRemoved(fs, fs', d, k, c) && Placed(fs) && Shaped(fs)
    ensures Placed(fs')
  {
    hide Slot, Size, Links;
    assert EntryFits(fs, d, k);
    forall x, l ensures EntryFits(fs', x, l) { assert EntryFits(fs, x, l); }
    forall x | IsDir(fs', x) && x != ROOT ensures Listed(fs', x) {
      assert Listed(fs, x) && DirShape(fs, x);
      NoSubdirs(fs, c);
      assert Parent(fs, x) == c ==> x in Subdirs(fs, c);
    }
  }

  lemma RemoveDirLinked(fs: Fs, fs': Fs, d: nat, k: nat, c: nat)
    requires DirRemoved(fs, fs', d, k, c) && Linked(fs) && Shaped(fs) && Parent(fs, c) == d && c != ROOT
    ensures Linked(fs')
  {
    hide Slot, Size, Links;
    forall x | IsDir(fs', x) ensures Links(fs', x) == 2 + |Subdirs(fs', x)| {
      assert Subdirs(fs', x) == Subdirs(fs, x) - {c};
      assert c in Subdirs(fs, x) <==> x == d;
    }
  }

  lemma RemoveDirNamed(fs: Fs, fs': Fs, d: nat, k: nat, c: nat)
    requires DirRemoved(fs, fs', d, k, c) && Named(fs)
    ensures Named(fs')
  {
    hide Slot, Size, Links;
    forall x | IsDir(fs', x) ensures NoClash(fs', x) { assert IsDir(fs, x) ==> NoClash(fs, x); }
  }

  // ---------------------------------------------------------------- a directory moves

  /** Everything below the moved directory changes its depth with it. */
  function Shifted(fs: Fs, c: nat, e: nat): map<nat, nat>
    requires c in fs.depth && e in fs.depth
  {
    map x | x in fs.depth ::
      if Within(fs, x, c) && fs.depth[x] >= fs.depth[c] then fs.depth[x] - fs.depth[c] + fs.depth[e] + 1
           else fs.depth[x]
  }

  function MoveDir(fs: Fs, d: nat, k: nat, e: nat, l: nat, name: string): Fs
    requires IsDir(fs, d) && k < Size(fs, d) && IsDir(fs, e) && l < Size(fs, e)
    requires var c := Slot(fs, d, k).ino; IsDir(fs, c) && Size(fs, c) > 1 && c in fs.depth && e in fs.depth
  {
    var c := Slot(fs, d, k).ino;
    var fs1 := SetSlot(fs, d, k, Entry(0, Slot(fs, d, k).name));
    var fs2 := SetSlot(fs1, e, l, Entry(c, name));
    var fs3 := SetSlot(fs2, c, 1, Slot(fs2, c, 1).(ino := e));
    var fs4 := SetLinks(fs3, d, Links(fs3, d) - 1);
    SetLinks(fs4, e, Links(fs4, e) + 1).(depth := Shifted(fs, c, e), at := fs.at[c := l])
  }

  ghost predicate DirMoved(fs: Fs, fs': Fs, d: nat, k: nat, e: nat, l: nat, c: nat, name: string) {
    && IsDir(fs, d) && 2 <= k < Size(fs, d) && IsDir(fs, e) && 2 <= l < Size(fs, e) && Slot(fs, d, k).ino == c
       && IsDir(fs, c)
    && Slot(fs, e, l).ino == 0 && c != d && c != e && c in fs.depth && e in fs.depth
    && (forall x :: IsDir(fs', x) == IsDir(fs, x) && (x in fs'.nodes <==> x in fs.nodes))
    && (forall x :: Links(fs', x) == Links(fs, x) + (if x == e then 1 else 0) - (if x == d then 1 else 0))
    && (forall x :: Size(fs', x) == Size(fs, x))
    && (forall x, i :: Slot(fs', x, i) ==
          if x == c && i == 1 then Entry(e, Slot(fs, c, 1).name)
          else if x == e && i == l then Entry(c, name)
          else if x == d && i == k then Entry(0, Slot(fs, d, k).name)
          else Slot(fs, x, i))
    && fs'.depth == Shifted(fs, c, e) && fs'.at == fs.at[c := l]
  }

  lemma MoveDirKeeps(fs: Fs, d: nat, k: nat, e: nat, l: nat, name: string)
    requires Tree(fs) && IsDir(fs, d) && 2 <= k < Size(fs, d) && IsDir(fs, e) && 2 <= l < Size(fs, e)
    requires IsDir(fs, Slot(fs, d, k).ino) && Slot(fs, e, l).ino == 0
    requires !Within(fs, e, Slot(fs, d, k).ino) && NoName(fs, e, l, name)
    ensures var c := Slot(fs, d, k).ino; Size(fs, c) > 1 && c in fs.depth && e in fs.depth
    ensures Tree(MoveDir(fs, d, k, e, l, name))
  {
    var c := Slot(fs, d, k).ino;
    StandsFacts(fs, d, k);
    assert OneDeeper(fs, c) && OneDeeper(fs, e) && DirShape(fs, c);
    hide Shaped, Climbs, Placed, Linked, Named, NoName;
    MoveDirReads(fs, d, k, e, l, name);
    var fs' := MoveDir(fs, d, k, e, l, name);
    hide MoveDir, Slot, Size, Links, DirMoved;
    MoveDirShaped(fs, fs', d, k, e, l, c, name);
    MoveDirClimbs(fs, fs', d, k, e, l, c, name);
    MoveDirPlaced(fs, fs', d, k, e, l, c, name);
    MoveDirLinked(fs, fs', d, k, e, l, c, name);
    MoveDirNamed(fs, fs', d, k, e, l, c, name);
  }

  lemma MoveDirReads(fs: Fs, d: nat, k: nat, e: nat, l: nat, name: string)
    requires IsDir(fs, d) && 2 <= k < Size(fs, d) && IsDir(fs, e) && 2 <= l < Size(fs, e) && Slot(fs, e, l).ino == 0
    requires var c := Slot(fs, d, k).ino;
               IsDir(fs, c) && Size(fs, c) > 1 && c in fs.depth && e in fs.depth && c != d && c != e
    ensures DirMoved(fs, MoveDir(fs, d, k, e, l, name), d, k, e, l, Slot(fs, d, k).ino, name)
  {
    hide Shifted, Within, SetSlot, SetLinks, Slot, Size, Links;
    var c := Slot(fs, d, k).ino;
    SetSlotReads(fs, d, k, Entry(0, Slot(fs, d, k).name));
    var fs1 := SetSlot(fs, d, k, Entry(0, Slot(fs, d, k).name));
    SetSlotReads(fs1, e, l, Entry(c, name));
    var fs2 := SetSlot(fs1, e, l, Entry(c, name));
    SetSlotReads(fs2, c, 1, Slot(fs2, c, 1).(ino := e));
    var fs3 := SetSlot(fs2, c, 1, Slot(fs2, c, 1).(ino := e));
    SetLinksReads(fs3, d, Links(fs3, d) - 1);
    var fs4 := SetLinks(fs3, d, Links(fs3, d) - 1);
    SetLinksReads(fs4, e, Links(fs4, e) + 1);
    var fs5 := SetLinks(fs4, e, Links(fs4, e) + 1);
    ReadsNodes(fs5, MoveDir(fs, d, k, e, l, name));
  }

  lemma SetLinksReads(fs: Fs, d: nat, n: int)
    requires IsDir(fs, d)
    ensures var fs' := SetLinks(fs, d, n);
            && (forall x :: IsDir(fs', x) == IsDir(fs, x) && (x in fs'.nodes <==> x in fs.nodes))
            && (forall x :: Links(fs', x) == if x == d then n else Links(fs, x))
            && (forall x :: Size(fs', x) == Size(fs, x)) && (forall x, i :: Slot(fs', x, i) == Slot(fs, x, i))
  {
  }

  lemma ReadsNodes(fs: Fs, fs': Fs)
    requires fs'.nodes == fs.nodes
    ensures forall x :: IsDir(fs', x) == IsDir(fs, x) && Links(fs', x) == Links(fs, x) && Size(fs', x) == Size(fs, x)
    ensures forall x, i :: Slot(fs', x, i) == Slot(fs, x, i)
  {
  }

  lemma MoveDirShaped(fs: Fs, fs': Fs, d: nat, k: nat, e: nat, l: nat, c: nat, name: string)
    requires DirMoved(fs, fs', d, k, e, l, c, name) && Shaped(fs) && c != ROOT
    ensures Shaped(fs')
  {
    hide Slot, Size, Links, Shifted;
    forall x | IsDir(fs', x) ensures DirShape(fs', x) { assert DirShape(fs, x); }
  }

  lemma MoveDirClimbs(fs: Fs, fs': Fs, d: nat, k: nat, e: nat, l: nat, c: nat, name: string)
    requires DirMoved(fs, fs', d, k, e, l, c, name) && Shaped(fs) && Climbs(fs) && c != ROOT && !Within(fs, e, c)
    ensures Climbs(fs')
  {
    hide Slot, Size, Links;
    forall x | IsDir(fs', x) ensures OneDeeper(fs', x) {
      assert DirShape(fs, x) && OneDeeper(fs, x) && OneDeeper(fs, e) && OneDeeper(fs, c);
      if Within(fs, x, c) { WithinDeeper(fs, x, c); }
      if x != ROOT && Within(fs, Parent(fs, x), c) { WithinDeeper(fs, Parent(fs, x), c); }
    }
  }

  lemma MoveDirPlaced(fs: Fs, fs': Fs, d: nat, k: nat, e: nat, l: nat, c: nat, name: string)
    requires DirMoved(fs, fs', d, k, e, l, c, name) && Placed(fs) && Shaped(fs) && c != ROOT && Parent(fs, c) == d
    ensures Placed(fs')
  {
    hide Slot, Size, Links, Shifted;
    assert EntryFits(fs, d, k);
    forall x, i ensures EntryFits(fs', x, i) { assert EntryFits(fs, x, i); }
    forall x | IsDir(fs', x) && x != ROOT ensures Listed(fs', x) { assert Listed(fs, x) && DirShape(fs, x); }
  }

  lemma MoveDirLinked(fs: Fs, fs': Fs, d: nat, k: nat, e: nat, l: nat, c: nat, name: string)
    requires DirMoved(fs, fs', d, k, e, l, c, name) && Linked(fs) && Shaped(fs) && Parent(fs, c) == d && c != ROOT
    ensures Linked(fs')
  {
    hide Slot, Size, Links, Shifted;
    forall x | IsDir(fs', x) ensures Links(fs', x) == 2 + |Subdirs(fs', x)| {
      var was := Subdirs(fs, x);
      assert c in was <==> x == d;
      assert Links(fs, x) == 2 + |was|;
      assert Subdirs(fs', x) == if x == e then was - {c} + {c} else was - {c};
      assert |was - {c}| == |was| - (if x == d then 1 else 0);
      assert |was - {c} + {c}| == |was - {c}| + 1;
    }
  }

  lemma MoveDirNamed(fs: Fs, fs': Fs, d: nat, k: nat, e: nat, l: nat, c: nat, name: string)
    requires DirMoved(fs, fs', d, k, e, l, c, name) && Named(fs) && Shaped(fs) && Parent(fs, c) == d
             && NoName(fs, e, l, name)
    ensures Named(fs')
  {
    hide Slot, Size, Links, Shifted;
    forall x | IsDir(fs', x) ensures NoClash(fs', x) { assert NoClash(fs, x); }
  }

  // ---------------------------------------------------------------- names

  /** Names are cut to 14 characters. */
  function Trunc(name: string): (r: string)
    ensures r <= name && |r| <= NAME_LEN && (r == name || |r| == NAME_LEN)
  {
    if |name| > NAME_LEN then name[..NAME_LEN] else name
  }

  /** minix_match: the empty name stands for ".". */
  predicate Match(name: string, e: Entry) {
    e.ino != 0 && ((name == "" && e.name == ".") || e.name == name)
  }

  predicate NoMatch(fs: Fs, d: nat, name: string) {
    forall k | 0 <= k < Size(fs, d) :: !Match(name, Slot(fs, d, k))
  }

  /** `k` is the first entry of that name, or -1. */
  predicate Found(fs: Fs, d: nat, name: string, k: int) {
    && -1 <= k < Size(fs, d) && (k >= 0 ==> Match(name, Slot(fs, d, k)))
    && forall j | 0 <= j < (if k < 0 then Size(fs, d) else k) :: !Match(name, Slot(fs, d, j))
  }

  /** A file goes from one entry to another, over a file or into a free entry. */
  function MoveFile(fs: Fs, d: nat, k: nat, e: nat, l: nat): Fs
    requires IsDir(fs, d) && k < Size(fs, d) && IsDir(fs, e) && l < Size(fs, e)
  {
    var fs1 := SetSlot(fs, d, k, Entry(0, Slot(fs, d, k).name));
    SetSlot(fs1, e, l, Entry(Slot(fs, d, k).ino, Slot(fs1, e, l).name))
  }

  function ClearSlot(fs: Fs, d: nat, k: nat): Fs
    requires IsDir(fs, d) && k < Size(fs, d)
  {
    SetSlot(fs, d, k, Entry(0, Slot(fs, d, k).name))
  }

  function DropLink(fs: Fs, n: nat): Fs
    requires n in fs.nodes
  {
    fs.(nodes := fs.nodes[n := fs.nodes[n].(nlink := fs.nodes[n].nlink - 1)])
  }

  lemma DropLinkKeeps(fs: Fs, n: nat)
    requires Tree(fs) && IsFile(fs, n)
    ensures Tree(DropLink(fs, n))
  {
    var fs' := DropLink(fs, n);
    var none := Entry(0, "");
    assert SameNodes(fs, fs') && OneSlot(fs, fs', 0, 2, none) && Slot(fs, 0, 2) == none by {
      hide Climbs, Placed, Linked, Named;
    }
    hide Slot, Size, Links, DropLink, Climbs, Placed, Linked, Named, SameNodes, OneSlot;
    assert !IsDir(fs, Slot(fs, 0, 2).ino);
    hide Shaped;
    OneSlotShape(fs, fs', 0, 2, none);
    OneSlotPlaced(fs, fs', 0, 2, none);
    OneSlotNamed(fs, fs', 0, 2, none);
  }

  lemma MoveFileKeeps(fs: Fs, d: nat, k: nat, e: nat, l: nat)
    requires Tree(fs) && IsDir(fs, d) && k < Size(fs, d) && IsDir(fs, e) && 2 <= l < Size(fs, e)
    requires IsFile(fs, Slot(fs, d, k).ino) && !IsDir(fs, Slot(fs, e, l).ino) && NoName(fs, e, l, Slot(fs, e, l).name)
    ensures k >= 2 && Tree(MoveFile(fs, d, k, e, l))
  {
    hide Slot, Size, Links, SetSlot, Climbs, Placed, Linked, Named;
    assert DirShape(fs, d);
    var fs1 := SetSlot(fs, d, k, Entry(0, Slot(fs, d, k).name));
    SetSlotKeeps(fs, d, k, Entry(0, Slot(fs, d, k).name));
    SetSlotReads(fs, d, k, Entry(0, Slot(fs, d, k).name));
    SetSlotKeeps(fs1, e, l, Entry(Slot(fs, d, k).ino, Slot(fs1, e, l).name));
  }

  ghost predicate Replaced(fs: Fs, fs': Fs, d: nat, k: nat, e: nat, l: nat, c: nat, n: nat) {
    && IsDir(fs, n) && IsDir(fs, e) && !IsDir(fs, c) && k >= 2 && Links(fs', n) == Links(fs, n) - 1
    && (forall x :: IsDir(fs', x) == IsDir(fs, x) && (x in fs'.nodes <==> x in fs.nodes))
    && Slot(fs', e, l).ino == c && (l >= 2 ==> forall x :: Slot(fs', x, 1) == Slot(fs, x, 1))
  }

  lemma ReplacedReads(fs: Fs, fs': Fs, d: nat, k: nat, e: nat, l: nat)
    requires IsDir(fs, d) && 2 <= k < Size(fs, d) && IsDir(fs, e) && l < Size(fs, e)
    requires IsFile(fs, Slot(fs, d, k).ino) && IsDir(fs, Slot(fs, e, l).ino)
    requires Slot(fs, e, l).ino in MoveFile(fs, d, k, e, l).nodes
    requires fs'.nodes == DropLink(MoveFile(fs, d, k, e, l), Slot(fs, e, l).ino).nodes
    ensures Replaced(fs, fs', d, k, e, l, Slot(fs, d, k).ino, Slot(fs, e, l).ino)
  {
  }

  /** A file put over a directory leaves no tree, whatever one takes for depths and places. */
  lemma ReplaceBreaks(fs: Fs, fs': Fs, d: nat, k: nat, e: nat, l: nat)
    requires Tree(fs) && IsDir(fs, d) && k < Size(fs, d) && IsDir(fs, e) && l < Size(fs, e)
    requires IsFile(fs, Slot(fs, d, k).ino) && IsDir(fs, Slot(fs, e, l).ino)
    requires Slot(fs, e, l).ino in MoveFile(fs, d, k, e, l).nodes
    requires fs'.nodes == DropLink(MoveFile(fs, d, k, e, l), Slot(fs, e, l).ino).nodes
    ensures !Tree(fs')
  {
    var n, c := Slot(fs, e, l).ino, Slot(fs, d, k).ino;
    assert DirShape(fs, d) && DirShape(fs, e);
    hide Shaped, Climbs, Placed, Named, Linked, MoveFile, DropLink;
    ReplacedReads(fs, fs', d, k, e, l);
    hide Slot, Size, Links, Replaced;
    if l < 2 { ReplacedShape(fs, fs', d, k, e, l, c, n); } else { ReplacedLinks(fs, fs', d, k, e, l, c, n); }
  }

  lemma ReplacedShape(fs: Fs, fs': Fs, d: nat, k: nat, e: nat, l: nat, c: nat, n: nat)
    requires Replaced(fs, fs', d, k, e, l, c, n) && l < 2
    ensures !Shaped(fs')
  {
    hide Slot, Size, Links;
    assert Shaped(fs') ==> DirShape(fs', e);
  }

  lemma ReplacedLinks(fs: Fs, fs': Fs, d: nat, k: nat, e: nat, l: nat, c: nat, n: nat)
    requires Replaced(fs, fs', d, k, e, l, c, n) && l >= 2 && Linked(fs)
    ensures !Linked(fs')
  {
    hide Slot, Size, Links;
    assert Subdirs(fs', n) == Subdirs(fs, n);
  }

  lemma FirstUsed(fs: Fs, d: nat)
    requires Tree(fs) && IsDir(fs, d)
    ensures Slot(fs, d, 0).ino != 0 && Slot(fs, d, 1).ino != 0 && Size(fs, d) >= 2
  {
    hide Climbs, Placed, Linked, Named, Slot, Size;
    assert DirShape(fs, d);
  }

  lemma NoZero(fs: Fs)
    requires Tree(fs)
    ensures 0 !in fs.nodes
  {
  }

  /** A name found in no entry clashes with none. */
  lemma NoMatchNoName(fs: Fs, fs': Fs, d: nat, k: nat, name: string)
    requires NoMatch(fs, d, name) && IsDir(fs, d) && k <= Size(fs, d) && Slot(fs, d, k).ino == 0
    requires fs' == SetSlot(fs, d, k, Entry(0, name))
    ensures NoName(fs', d, k, name) && IsDir(fs', d) && k < Size(fs', d) && Slot(fs', d, k) == Entry(0, name)
  {
    SetSlotReads(fs, d, k, Entry(0, name));
    hide Slot, Size, SetSlot;
    forall l | 0 <= l < Size(fs', d) && l != k && Slot(fs', d, l).ino != 0 ensures Slot(fs', d, l).name != name {
      assert !Match(name, Slot(fs, d, l));
    }
  }

  function AddFile(fs: Fs, c: nat): Fs {
    fs.(nodes := fs.nodes[c := File(1)])
  }

  lemma AddFileReads(fs: Fs, c: nat)
    requires c !in fs.nodes
    ensures var fs' := AddFile(fs, c);
            && (forall x ::
                 IsDir(fs', x) == IsDir(fs, x) && Links(fs', x) == Links(fs, x) && Size(fs', x) == Size(fs, x))
            && (forall x, i :: Slot(fs', x, i) == Slot(fs, x, i))
  {
  }

  lemma AddFileKeeps(fs: Fs, c: nat)
    requires Tree(fs) && c != 0 && c !in fs.nodes
    ensures Tree(AddFile(fs, c))
  {
    var fs' := AddFile(fs, c);
    AddFileReads(fs, c);
    hide Slot, Size, Links;
    assert Shaped(fs') && Climbs(fs') by {
      hide Placed, Linked, Named;
      forall x | IsDir(fs', x) ensures DirShape(fs', x) && OneDeeper(fs', x)
      {
        assert DirShape(fs, x) && OneDeeper(fs, x);
      }
    }
    assert Placed(fs') by {
      hide Shaped, Climbs, Linked, Named;
      forall x, l ensures EntryFits(fs', x, l) { assert EntryFits(fs, x, l); }
      forall y | IsDir(fs', y) && y != ROOT ensures Listed(fs', y) { assert Listed(fs, y); }
    }
    assert Linked(fs') by {
      hide Shaped, Climbs, Placed, Named;
      forall x ensures Subdirs(fs', x) == Subdirs(fs, x) {}
    }
    assert Named(fs') by {
      hide Shaped, Climbs, Placed, Linked;
      forall x | IsDir(fs', x) ensures NoClash(fs', x) { assert NoClash(fs, x); }
    }
  }

  /** What minix_rmdir asks of the directory. */
  ghost predicate Removable(fs: Fs, d: nat, c: nat) {
    c != d && IsDir(fs, c) && Hollow(fs, c)
  }

  lemma EntryKnown(fs: Fs, d: nat, k: nat)
    requires Tree(fs) && IsDir(fs, d) && k < Size(fs, d) && Slot(fs, d, k).ino != 0
    ensures Slot(fs, d, k).ino in fs.nodes
  {
    hide Climbs, Linked, Named, Slot, Size;
    assert DirShape(fs, d) && EntryFits(fs, d, k);
  }

  lemma FileEntry(fs: Fs, d: nat, k: nat)
    requires Tree(fs) && IsDir(fs, d) && k < Size(fs, d) && !IsDir(fs, Slot(fs, d, k).ino)
    ensures k >= 2
  {
    hide Climbs, Placed, Linked, Named, Slot, Size;
    assert DirShape(fs, d);
  }

  /** "." is the directory itself, and the directory ".." names is not empty. */
  lemma DotsNotRemovable(fs: Fs, d: nat, k: nat)
    requires Tree(fs) && IsDir(fs, d) && k < Size(fs, d) && Removable(fs, d, Slot(fs, d, k).ino)
    ensures k >= 2
  {
    hide Climbs, Linked, Named, Slot, Size, Hollow;
    assert DirShape(fs, d);
    if k == 1 {
      assert Listed(fs, d);
      HollowSlot(fs, Parent(fs, d), fs.at[d]);
    }
  }

  lemma DotDotFound(fs: Fs, d: nat, k: int)
    requires Tree(fs) && IsDir(fs, d) && Found(fs, d, Trunc(".."), k)
    ensures k == 1 && k < Size(fs, d)
  {
    hide Climbs, Placed, Linked, Named;
    assert DirShape(fs, d);
    assert Match("..", Slot(fs, d, 1));
    assert !Match("..", Slot(fs, d, 0)) by { assert Slot(fs, d, 0).name[1..] == ""; }
  }

  /** One turn of the climb. */
  lemma ClimbStep(fs: Fs, x: nat, c: nat)
    requires Tree(fs) && IsDir(fs, x) && IsDir(fs, c)
    ensures x in fs.depth && IsDir(fs, Parent(fs, x)) && Parent(fs, x) in fs.depth
    ensures Parent(fs, x) == x <==> x == ROOT
    ensures x != ROOT ==> fs.depth[Parent(fs, x)] < fs.depth[x]
    ensures x != c ==> (Within(fs, x, c) <==> x != ROOT && Within(fs, Parent(fs, x), c))
  {
    hide Placed, Linked, Named, Slot, Size;
    assert DirShape(fs, x) && OneDeeper(fs, x);
  }

  // ---------------------------------------------------------------- rename

  /** A file is put over a directory. */
  predicate OverDirectory(fs: Fs, d: nat, k: int, e: nat, l: int) {
    k >= 0 && l >= 0 && IsFile(fs, Slot(fs, d, k).ino) && IsDir(fs, Slot(fs, e, l).ino)
  }

  /** Both names name one inode already. */
  predicate SameInode(fs: Fs, d: nat, k: int, e: nat, l: int) {
    k >= 0 && l >= 0 && Slot(fs, e, l).ino == Slot(fs, d, k).ino
  }

  /** What rename asks for: a directory goes by its real entry to a new name outside itself, and its owner lets it. */
  predicate Movable(fs: Fs, d: nat, k: int, e: nat, l: int, name: string, writable: bool, room: bool) {
    && k >= 0
    && var c := Slot(fs, d, k).ino;
       if IsDir(fs, c) then l < 0 && writable && !Within(fs, e, c) && Parent(fs, c) == d && CanAdd(fs, e, name, room)
       else l >= 0 || CanAdd(fs, e, name, room)
  }

  function FileLinks(fs: Fs, n: nat): int {
    if n in fs.nodes then fs.nodes[n].nlink else 0
  }

  /** Of all entries only the two named, and ".." of a directory that moves, have changed. */
  ghost predicate Elsewhere(fs: Fs, fs': Fs, d: nat, k: nat, e: nat, m: nat, c: nat) {
    forall x: nat, i: nat {:trigger Slot(fs', x, i)} ::
      (x != d || i != k) && (x != e || i != m) && (x != c || i != 1 || !IsDir(fs, c)) ==>
          Slot(fs', x, i) == Slot(fs, x, i)
  }

  /** The old name is gone and the new one names the inode; a directory has a new parent, and the two parents
      have their links adjusted; a file that stood under the new name has lost a link.  Nothing else changes. */
  ghost predicate Renamed(fs: Fs, fs': Fs, d: nat, k: nat, e: nat, l: int, m: nat, name: string) {
    var c := Slot(fs, d, k).ino;
    if l >= 0 && Slot(fs, e, l).ino == c then fs' == fs
    else
      && Slot(fs', e, m).ino == c && (l < 0 ==> Slot(fs', e, m).name == name) && (l >= 0 ==> m == l)
      && Slot(fs', d, k).ino == 0 && fs'.nodes.Keys == fs.nodes.Keys && Elsewhere(fs, fs', d, k, e, m, c)
      && (IsDir(fs, c) ==> Parent(fs', c) == e)
      && (!IsDir(fs, c) ==> forall x ::
           FileLinks(fs', x) == FileLinks(fs, x) - (if l >= 0 && x == Slot(fs, e, l).ino then 1 else 0))
      && (IsDir(fs, c) ==> forall x | IsDir(fs, x) ::
           Links(fs', x) == Links(fs, x) + (if x == e then 1 else 0) - (if x == d then 1 else 0))
  }

  lemma FoundRange(fs: Fs, d: nat, name: string, k: int)
    requires Found(fs, d, name, k)
    ensures -1 <= k < Size(fs, d) && (k >= 0 ==> Match(name, Slot(fs, d, k))) && (k < 0 ==> NoMatch(fs, d, name))
  {
  }

  lemma RenamedSame(fs: Fs, d: nat, k: nat, e: nat, l: nat, name: string)
    requires Tree(fs) && IsDir(fs, d) && k < Size(fs, d) && Slot(fs, e, l).ino == Slot(fs, d, k).ino
    ensures Renamed(fs, fs, d, k, e, l, 0, name) && !OverDirectory(fs, d, k, e, l)
  {
  }

  lemma ParentSlot(fs: Fs, c: nat)
    requires Tree(fs) && IsDir(fs, c)
    ensures Size(fs, c) > 1 && Slots(fs, c)[1].ino == Parent(fs, c)
  {
    hide Climbs, Placed, Linked, Named;
    assert DirShape(fs, c);
  }

  /** Once the new entry is there, all is set for the move of a directory. */
  lemma MoveAfterAdd(fs: Fs, fs': Fs, d: nat, k: nat, e: nat, l: nat, name: string)
    requires Tree(fs) && Tree(fs') && IsDir(fs, d) && k < Size(fs, d) && IsDir(fs, e) && IsDir(fs, Slot(fs, d, k).ino)
    requires NoMatch(fs, e, name) && 2 <= l <= Size(fs, e) && Slot(fs, e, l).ino == 0
             && fs' == SetSlot(fs, e, l, Entry(0, name))
    requires Parent(fs, Slot(fs, d, k).ino) == d && !Within(fs, e, Slot(fs, d, k).ino)
    ensures var c := Slot(fs, d, k).ino;
              k >= 2 && c == Slot(fs', d, k).ino && IsDir(fs', c) && IsDir(fs', d) && IsDir(fs', e)
    ensures k < Size(fs', d) && l < Size(fs', e) && (d, k) != (e, l) && Slot(fs', e, l) == Entry(0, name)
    ensures var c := Slot(fs, d, k).ino; Size(fs', c) > 1 && c in fs'.depth && e in fs'.depth
    ensures Tree(MoveDir(fs', d, k, e, l, name))
    ensures DirMoved(fs', MoveDir(fs', d, k, e, l, name), d, k, e, l, Slot(fs, d, k).ino, name)
  {
    hide Placed, Linked, Named, NoMatch, NoName;
    var c := Slot(fs, d, k).ino;
    SetSlotReads(fs, e, l, Entry(0, name));
    NoMatchNoName(fs, fs', e, l, name);
    assert DirShape(fs, d) && DirShape(fs, c) && OneDeeper(fs, c) && OneDeeper(fs, e) && OneDeeper(fs, d);
    hide SetSlot, MoveDir, Slot, Size, Links;
    ReachesRoot(fs, e);
    RealEntry(fs, d, k);
    WithinSame(fs, fs', e, c);
    hide Shaped, Climbs;
    MoveDirKeeps(fs', d, k, e, l, name);
    MoveDirReads(fs', d, k, e, l, name);
  }

  /** The entry of a directory whose ".." is `d` is neither "." nor ".." of `d`. */
  lemma RealEntry(fs: Fs, d: nat, k: nat)
    requires Tree(fs) && IsDir(fs, d) && k < Size(fs, d) && IsDir(fs, Slot(fs, d, k).ino)
             && Parent(fs, Slot(fs, d, k).ino) == d
    requires Slot(fs, d, k).ino != ROOT
    ensures k >= 2
  {
    hide Placed, Linked, Named, Slot, Size;
    var c := Slot(fs, d, k).ino;
    assert DirShape(fs, d) && DirShape(fs, c) && OneDeeper(fs, c) && OneDeeper(fs, d);
  }

  lemma {:induction false} WithinSame(fs: Fs, fs': Fs, x: nat, c: nat)
    requires fs'.depth == fs.depth && forall y :: Slot(fs', y, 1) == Slot(fs, y, 1)
    ensures Within(fs', x, c) == Within(fs, x, c)
    decreases if x in fs.depth then fs.depth[x] else 0
  {
    hide Slot;
    if x != ROOT && x in fs.depth && Parent(fs, x) in fs.depth && fs.depth[Parent(fs, x)] < fs.depth[x] {
      WithinSame(fs, fs', Parent(fs, x), c);
    }
  }

  lemma RenamedDir(fs: Fs, fs': Fs, d: nat, k: nat, e: nat, l: int, m: nat, name: string)
    requires IsDir(fs, d) && k < Size(fs, d) && IsDir(fs, Slot(fs, d, k).ino) && IsDir(fs, e) && m <= Size(fs, e)
             && l < 0
    requires var fs1 := SetSlot(fs, e, m, Entry(0, name)); DirMoved(fs1, fs', d, k, e, m, Slot(fs, d, k).ino, name)
    requires (d, k) != (e, m)
    ensures Renamed(fs, fs', d, k, e, l, m, name) && !OverDirectory(fs, d, k, e, l)
  {
  }

  lemma FileAfterAdd(fs: Fs, fs': Fs, d: nat, k: nat, e: nat, l: nat, name: string)
    requires Tree(fs) && Tree(fs') && IsDir(fs, d) && k < Size(fs, d) && IsDir(fs, e) && IsFile(fs, Slot(fs, d, k).ino)
    requires NoMatch(fs, e, name) && 2 <= l <= Size(fs, e) && Slot(fs, e, l).ino == 0
             && fs' == SetSlot(fs, e, l, Entry(0, name))
    ensures IsDir(fs', d) && IsDir(fs', e) && k < Size(fs', d) && l < Size(fs', e) && Slot(fs', d, k) == Slot(fs, d, k)
    ensures (d, k) != (e, l) && Tree(MoveFile(fs', d, k, e, l))
  {
    NoZero(fs);
    NoZero(fs');
    SetSlotReads(fs, e, l, Entry(0, name));
    NoMatchNoName(fs, fs', e, l, name);
    hide Tree, NoMatch, NoName, Slot, Size, Links, MoveFile;
    assert (d, k) != (e, l) ==> IsFile(fs', Slot(fs', d, k).ino);
    hide SetSlot;
    MoveFileKeeps(fs', d, k, e, l);
  }

  lemma RenamedFile(fs: Fs, fs': Fs, d: nat, k: nat, e: nat, l: int, m: nat, name: string)
    requires IsDir(fs, d) && k < Size(fs, d) && IsFile(fs, Slot(fs, d, k).ino) && IsDir(fs, e) && m <= Size(fs, e)
             && l < 0
    requires var fs1 := SetSlot(fs, e, m, Entry(0, name));
             IsDir(fs1, d) && k < Size(fs1, d) && IsDir(fs1, e) && m < Size(fs1, e) && fs' == MoveFile(fs1, d, k, e, m)
    requires (d, k) != (e, m)
    ensures Renamed(fs, fs', d, k, e, l, m, name) && !OverDirectory(fs, d, k, e, l)
  {
    MoveFileReads(fs, fs', d, k, e, m, name);
  }

  lemma MoveFileReads(fs: Fs, fs': Fs, d: nat, k: nat, e: nat, m: nat, name: string)
    requires IsDir(fs, d) && k < Size(fs, d) && IsDir(fs, e) && m <= Size(fs, e) && (d, k) != (e, m)
    requires var fs1 := SetSlot(fs, e, m, Entry(0, name));
             IsDir(fs1, d) && k < Size(fs1, d) && IsDir(fs1, e) && m < Size(fs1, e) && fs' == MoveFile(fs1, d, k, e, m)
    ensures Slot(fs', e, m) == Entry(Slot(fs, d, k).ino, name) && Slot(fs', d, k).ino == 0
            && fs'.nodes.Keys == fs.nodes.Keys
    ensures forall x :: FileLinks(fs', x) == FileLinks(fs, x)
    ensures Elsewhere(fs, fs', d, k, e, m, Slot(fs, d, k).ino)
  {
    assert forall x :: x in fs'.nodes.Keys <==> x in fs.nodes.Keys;
  }

  lemma FileOver(fs: Fs, d: nat, k: nat, e: nat, l: nat)
    requires Tree(fs) && IsDir(fs, d) && k < Size(fs, d) && IsDir(fs, e) && l < Size(fs, e)
    requires IsFile(fs, Slot(fs, d, k).ino) && Slot(fs, e, l).ino in fs.nodes
    ensures var n := Slot(fs, e, l).ino; var fs1 := MoveFile(fs, d, k, e, l);
            n in fs1.nodes && (Tree(DropLink(fs1, n)) <==> !IsDir(fs, n))
  {
    var n, fs1 := Slot(fs, e, l).ino, MoveFile(fs, d, k, e, l);
    assert n in fs1.nodes && (IsFile(fs, n) ==> IsFile(fs1, n));
    if IsDir(fs, n) {
      ReplaceBreaks(fs, DropLink(fs1, n), d, k, e, l);
    } else {
      FileEntry(fs, e, l);
      OwnName(fs, e, l);
      hide MoveFile, Tree;
      MoveFileKeeps(fs, d, k, e, l);
      DropLinkKeeps(fs1, n);
    }
  }

  lemma OwnName(fs: Fs, d: nat, k: nat)
    requires Tree(fs) && IsDir(fs, d) && k < Size(fs, d) && Slot(fs, d, k).ino != 0
    ensures NoName(fs, d, k, Slot(fs, d, k).name)
  {
    hide Shaped, Climbs, Placed, Linked, Slot, Size;
    assert NoClash(fs, d);
  }

  lemma RenamedOver(fs: Fs, fs': Fs, d: nat, k: nat, e: nat, l: nat, name: string)
    requires IsDir(fs, d) && k < Size(fs, d) && IsDir(fs, e) && l < Size(fs, e) && !IsDir(fs, Slot(fs, d, k).ino)
    requires Slot(fs, e, l).ino in MoveFile(fs, d, k, e, l).nodes && Slot(fs, e, l).ino != Slot(fs, d, k).ino
    requires fs' == DropLink(MoveFile(fs, d, k, e, l), Slot(fs, e, l).ino)
    ensures Renamed(fs, fs', d, k, e, l, l, name)
  {
    assert forall x :: x in fs'.nodes.Keys <==> x in fs.nodes.Keys;
  }

  /** The root with a file "f" and a directory "g". */
  function Sample(): Fs {
    Fs(map[ROOT := Dir(3, [Entry(ROOT, "."), Entry(ROOT, ".."), Entry(2, "f"), Entry(3, "g")]),
           2 := File(1), 3 := Dir(2, [Entry(3, "."), Entry(ROOT, "..")])],
       map[ROOT := 0, 3 := 1], map[3 := 3])
  }

  /** Renaming "f" to "g" there leaves no tree. */
  lemma SampleBreaks()
    ensures Tree(Sample()) && OverDirectory(Sample(), ROOT, 2, ROOT, 3)
    ensures !Tree(DropLink(MoveFile(Sample(), ROOT, 2, ROOT, 3), 3))
  {
    SampleTree();
    hide Tree;
    ReplaceBreaks(Sample(), DropLink(MoveFile(Sample(), ROOT, 2, ROOT, 3), 3), ROOT, 2, ROOT, 3);
  }

  lemma SampleTree()
    ensures Tree(Sample())
  {
    var fs := Sample();
    assert forall d :: IsDir(fs, d) <==> d == ROOT || d == 3;
    assert Subdirs(fs, ROOT) == {3} && Subdirs(fs, 3) == {};
    assert NoClash(fs, ROOT) && NoClash(fs, 3);
    assert Listed(fs, 3);
    forall d: nat, k: nat ensures EntryFits(fs, d, k) {
      assert Size(fs, d) == if d == ROOT then 4 else if d == 3 then 2 else 0;
    }
  }
}
