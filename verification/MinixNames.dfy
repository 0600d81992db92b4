/** minix_find_entry, minix_add_entry, minix_create, minix_mkdir, minix_rmdir, minix_unlink and do_minix_rename
    (fs/minix/namei.c), each run to its end without interference. */
module MinixNames {
  import opened Kernel
  import opened Wrappers
  import opened MinixDirs

  class Directories {
    var nodes: map<nat, Node>
    ghost var depth: map<nat, nat>
    ghost var at: map<nat, nat>

    ghost function View(): Fs
      reads this
    {
      Fs(nodes, depth, at)
    }

    ghost predicate Valid()
      reads this
    {
      Tree(View())
    }

    /** A new volume: the root directory alone. */
    constructor ()
      ensures Valid() && nodes == map[ROOT := Dir(2, [Entry(ROOT, "."), Entry(ROOT, "..")])]
    {
      nodes := map[ROOT := Dir(2, [Entry(ROOT, "."), Entry(ROOT, "..")])];
      depth, at := map[ROOT := 0], map[];
      new;
      assert Subdirs(View(), ROOT) == {};
    }

    function SlotsOf(d: nat): seq<Entry>
      reads this
    {
      if d in nodes && nodes[d].Dir? then nodes[d].slots else []
    }

    predicate DirAt(d: nat)
      reads this
    {
      d in nodes && nodes[d].Dir?
    }

    /** minix_find_entry */
    method FindEntry(d: nat, name: string) returns (k: int)
      requires DirAt(d)
      ensures Found(View(), d, Trunc(name), k)
    {
      var wanted, s := Trunc(name), SlotsOf(d);
      k := 0;
      while k < |s|
        invariant 0 <= k <= |s| && forall j | 0 <= j < k :: !Match(wanted, Slot(View(), d, j))
      {
        if Match(wanted, s[k]) { return; }
        k := k + 1;
      }
      k := -1;
    }

    /** minix_add_entry: the first unused entry, or a new one at the end; -1 when the directory cannot grow.
        `room` tells whether minix_create_block finds a block.  Without one it fails exactly when the blocks of the
        directory are full. */
    method AddEntry(d: nat, name: string, room: bool) returns (k: int)
      requires Valid() && DirAt(d)
      modifies this
      ensures Valid()
      ensures k < 0 ==> View() == old(View())
      ensures k < 0 <==> name == "" || (!room && |old(SlotsOf(d))| * (2 + NAME_LEN) % 1024 == 0
                                        && forall e | e in old(SlotsOf(d)) :: e.ino != 0)
      ensures k >= 0 <==> CanAdd(old(View()), d, name, room)
      ensures forall j | 0 <= j < k :: Slot(old(View()), d, j).ino != 0
      ensures k >= 0 ==> 2 <= k <= Size(old(View()), d) && Slot(old(View()), d, k).ino == 0
                         && View() == SetSlot(old(View()), d, k, Entry(0, Trunc(name)))
    {
      ghost var fs := View();
      assert DirShape(fs, d);
      hide Tree;
      if name == "" { return -1; }
      var s := SlotsOf(d);
      var de := 0;
      ghost var blocks := 0;
      k := 0;
      while true
        invariant 0 <= k <= |s| && forall j | 0 <= j < k :: Slot(fs, d, j).ino == s[j].ino != 0
        invariant 0 <= de <= BLOCK_SIZE && k * ENTRY_SIZE == blocks * BLOCK_SIZE + de && (de == 0 ==> k == 0)
        decreases |s| - k
      {
        if de >= BLOCK_SIZE {
          if k * ENTRY_SIZE >= |s| * ENTRY_SIZE && !room { return -1; }
          de, blocks := 0, blocks + 1;
        }
        if k * ENTRY_SIZE >= |s| * ENTRY_SIZE { break; }
        if s[k].ino == 0 { break; }
        de, k := de + ENTRY_SIZE, k + 1;
      }
      assert k >= 2 by { assert Slot(fs, d, 0).ino == s[0].ino && Slot(fs, d, 1).ino == s[1].ino; FirstUsed(fs, d); }
      SetSlotKeeps(fs, d, k, Entry(0, Trunc(name))) by { NoZero(fs); }
      var free := Entry(0, Trunc(name));
      nodes := nodes[d := nodes[d].(slots := if k == |s| then s + [free] else s[k := free])];
    }

    /** minix_create: the caller has looked the name up in vain; `c` is the inode minix_new_inode found, if any. */
    method Create(d: nat, name: string, c: Option<nat>, room: bool) returns (r: int, ghost k: int)
      requires Valid() && DirAt(d) && NoMatch(View(), d, Trunc(name)) && (c.Some? ==> c.value != 0 && c.value !in nodes)
      modifies this
      ensures Valid() && (r == 0 || r == -ENOSPC)
      ensures r == 0 <==> c.Some? && CanAdd(old(View()), d, name, room)
      ensures r != 0 ==> View() == old(View())
      ensures r == 0 ==>
                c.Some? && IsFile(View(), c.value) && k >= 2 && Slot(View(), d, k) == Entry(c.value, Trunc(name))
                         && nodes.Keys == old(nodes.Keys) + {c.value}
                         && forall x: nat, i: nat | x != d || i != k :: Slot(View(), x, i) == Slot(old(View()), x, i)
    {
      k := -1;
      if c.None? { return -ENOSPC, k; }
      ghost var fs := View();
      var i := AddEntry(d, name, room);
      k := i;
      if i < 0 { return -ENOSPC, k; }
      ghost var fs1 := View();
      AddFileKeeps(fs1, c.value);
      NoMatchNoName(fs, fs1, d, i, Trunc(name));
      ghost var fs2 := AddFile(fs1, c.value);
      hide Tree, NoName, NoMatch;
      AddFileReads(fs1, c.value);
      nodes := nodes[c.value := File(1)];
      SetSlotKeeps(fs2, d, i, Entry(c.value, Trunc(name)));
      var s := SlotsOf(d);
      nodes := nodes[d := nodes[d].(slots := s[i := s[i].(ino := c.value)])];
      assert View() == SetSlot(fs2, d, i, Entry(c.value, Trunc(name)));
      r := 0;
    }

    /** minix_mkdir; `block` tells whether minix_new_block finds a block for the new directory. */
    method Mkdir(d: nat, name: string, c: Option<nat>, block: bool, room: bool) returns (r: int, ghost k: nat)
      requires Valid() && DirAt(d) && (c.Some? ==> c.value != 0 && c.value !in nodes)
      modifies this
      ensures Valid()
      ensures r != 0 ==> View() == old(View())
      ensures r == -EEXIST <==> !NoMatch(old(View()), d, Trunc(name))
      ensures r == 0 || r == -EEXIST || r == -ENOSPC
      ensures r == 0 <==> NoMatch(old(View()), d, Trunc(name)) && c.Some? && block && CanAdd(old(View()), d, name, room)
      ensures r == 0 ==> c.Some? && Parent(View(), c.value) == d && Slot(View(), d, k) == Entry(c.value, Trunc(name))
                         && IsDir(View(), c.value) && Hollow(View(), c.value)
                         && Links(View(), d) == Links(old(View()), d) + 1 && nodes.Keys == old(nodes.Keys) + {c.value}
                         && forall x: nat, i: nat | x != c.value && (x != d || i != k) ::
                              Slot(View(), x, i) == Slot(old(View()), x, i)
    {
      k := 0;
      ghost var fs := View();
      var f := FindEntry(d, name);
      if f >= 0 { return -EEXIST, k; }
      if c.None? { return -ENOSPC, k; }
      if !block { return -ENOSPC, k; }
      var i := AddEntry(d, name, room);
      if i < 0 { return -ENOSPC, k; }
      k := i;
      ghost var fs1 := View();
      NoMatchNoName(fs, fs1, d, i, Trunc(name));
      SetSlotReads(fs, d, i, Entry(0, Trunc(name)));
      hide Tree, NoName, NoMatch, DirAdded, Slot, Size, Links, AddDir, SetSlot;
      AddDirKeeps(fs1, d, i, c.value, Trunc(name));
      NewDir(d, i, c.value, Trunc(name));
      DirAddedFacts(fs1, View(), d, i, c.value, Trunc(name));
      r := 0;
    }

    /** The stores of minix_mkdir once everything has been found: the entry, the two names, the link. */
    method NewDir(d: nat, i: nat, c: nat, name: string)
      requires DirAt(d) && i < Size(View(), d) && Slot(View(), d, i).name == name && d in depth && c != d
      modifies this
      ensures View() == AddDir(old(View()), d, i, c, name)
    {
      var s := SlotsOf(d);
      nodes := nodes[d := Dir(nodes[d].nlink + 1, s[i := s[i].(ino := c)])];
      nodes := nodes[c := Dir(2, [Entry(c, "."), Entry(d, "..")])];
      at, depth := at[c := i], depth[c := depth[d] + 1];
    }

    /** empty_dir, for a directory whose "." and ".." are in order. */
    method EmptyDir(c: nat) returns (r: bool)
      requires Valid() && DirAt(c)
      ensures r <==> Hollow(View(), c)
    {
      hide Tree;
      var s := SlotsOf(c);
      var nr := 2;
      while nr < |s|
        invariant nr >= 2 && forall i | 2 <= i < nr && i < |s| :: s[i].ino == 0
      {
        if s[nr].ino != 0 {
          assert Slot(View(), c, nr).ino != 0;
          return false;
        }
        nr := nr + 1;
      }
      r := true;
    }

    /** minix_rmdir: it succeeds exactly for an unused empty directory other than `d` itself, reached by its
        real entry. `k` is the entry found. */
    method Rmdir(d: nat, name: string, sticky: bool, busy: bool) returns (r: int, ghost k: int)
      requires Valid() && DirAt(d)
      modifies this
      ensures Valid() && Found(old(View()), d, Trunc(name), k)
      ensures r != 0 ==> View() == old(View())
      ensures r == 0 <==> k >= 0 && !sticky && !busy && old(Removable(View(), d, Slot(View(), d, k).ino))
      ensures r == 0 ==> k >= 2 && View() == RemoveDir(old(View()), d, k)
      ensures r == -ENOENT <==> k < 0
      ensures k >= 0 ==> var c := Slot(old(View()), d, k).ino;
                && (r == -EPERM <==> sticky || c == d)
                && (r == -ENOTDIR <==> !sticky && c != d && !IsDir(old(View()), c))
                && (r == -ENOTEMPTY <==> !sticky && c != d && IsDir(old(View()), c) && !Hollow(old(View()), c))
                && (r == -EBUSY <==> !sticky && c != d && IsDir(old(View()), c) && Hollow(old(View()), c) && busy)
    {
      ghost var fs := View();
      var f := FindEntry(d, name);
      k := f;
      if f < 0 { return -ENOENT, k; }
      var c := SlotsOf(d)[f].ino;
      assert c == Slot(fs, d, f).ino && c != 0;
      EntryKnown(fs, d, f);
      hide Tree, Hollow, Found;
      if sticky || c == d { return -EPERM, k; }
      if !DirAt(c) { return -ENOTDIR, k; }
      var empty := EmptyDir(c);
      if !empty { return -ENOTEMPTY, k; }
      if busy { return -EBUSY, k; }
      DotsNotRemovable(fs, d, f);
      RemoveDirKeeps(fs, d, f);
      hide Slot, Size, Links;
      ForgetDir(d, f, c);
      r := 0;
    }

    /** The stores of minix_rmdir; the inode goes when it is given up. */
    method ForgetDir(d: nat, i: nat, c: nat)
      requires DirAt(d) && i < Size(View(), d) && Slot(View(), d, i).ino == c && c in nodes && c != d
      modifies this
      ensures View() == RemoveDir(old(View()), d, i)
    {
      var s := SlotsOf(d);
      nodes := nodes[d := nodes[d].(slots := s[i := s[i].(ino := 0)])];
      nodes := nodes[d := nodes[d].(nlink := nodes[d].nlink - 1)];
      nodes := nodes - {c};
    }

    /** minix_unlink */
    method Unlink(d: nat, name: string, sticky: bool) returns (r: int, ghost k: int)
      requires Valid() && DirAt(d)
      modifies this
      ensures Valid() && Found(old(View()), d, Trunc(name), k)
      ensures r != 0 ==> View() == old(View())
      ensures r == 0 <==> k >= 0 && !sticky && old(IsFile(View(), Slot(View(), d, k).ino))
      ensures r == 0 || r == -ENOENT || r == -EPERM
      ensures r == -ENOENT <==> k < 0
      ensures r == 0 ==> k >= 2 && old(Slot(View(), d, k).ino) in ClearSlot(old(View()), d, k).nodes
                         && View() == DropLink(ClearSlot(old(View()), d, k), old(Slot(View(), d, k).ino))
                         && Slot(View(), d, k).ino == 0
      ensures r == 0 ==> forall x: nat, i: nat | x != d || i != k :: Slot(View(), x, i) == Slot(old(View()), x, i)
      ensures r == 0 ==> forall x: nat :: FileLinks(View(), x) == FileLinks(old(View()), x)
                                         - if x == old(Slot(View(), d, k).ino) then 1 else 0
    {
      ghost var fs := View();
      var f := FindEntry(d, name);
      k := f;
      if f < 0 { return -ENOENT, k; }
      var c := SlotsOf(d)[f].ino;
      assert c == Slot(fs, d, f).ino && c != 0;
      EntryKnown(fs, d, f);
      hide Tree, Found;
      if sticky || DirAt(c) { return -EPERM, k; }
      FileEntry(fs, d, f);
      var s := SlotsOf(d);
      ghost var e := Entry(0, Slot(fs, d, f).name);
      SetSlotKeeps(fs, d, f, e);
      nodes := nodes[d := nodes[d].(slots := s[f := s[f].(ino := 0)])];
      assert View() == SetSlot(fs, d, f, e);
      assert View() == ClearSlot(fs, d, f);
      DropLinkKeeps(View(), c);
      LoseLink(c);
      r := 0;
    }

    /** i_nlink-- */
    method LoseLink(c: nat)
      requires c in nodes
      modifies this
      ensures View() == DropLink(old(View()), c)
    {
      nodes := nodes[c := nodes[c].(nlink := nodes[c].nlink - 1)];
    }

    /** subdir: climbing from `new` by ".." finds exactly the ancestors, and ends. */
    method Subdir(new_: nat, old_: nat) returns (r: bool)
      requires Valid() && DirAt(new_) && DirAt(old_)
      ensures r <==> Within(View(), new_, old_)
    {
      ghost var fs := View();
      hide Tree;
      var x := new_;
      ClimbStep(fs, x, old_);
      while x != old_
        invariant IsDir(fs, x) && x in fs.depth && (Within(fs, new_, old_) <==> Within(fs, x, old_))
        decreases fs.depth[x]
        modifies {}
      {
        ClimbStep(fs, x, old_);
        var k := FindEntry(x, "..");
        DotDotFound(fs, x, k);
        var up := SlotsOf(x)[k].ino;
        if up == x { return false; }
        x := up;
      }
      r := true;
    }

    /** do_minix_rename; `writable` is the permission on a directory that moves. `k` and `l` are the old entry
        and the entry under the new name found, if any.  The tree survives unless a file goes over a directory,
        which nothing in the source prevents. */
    method Rename(d: nat, name: string, e: nat, name2: string, writable: bool, room: bool)
      returns (r: int, ghost k: int, ghost l: int, ghost m: nat)
      requires Valid() && DirAt(d) && DirAt(e)
      modifies this
      ensures Found(old(View()), d, Trunc(name), k) && Found(old(View()), e, Trunc(name2), l)
      ensures Valid() <==> !(r == 0 && old(OverDirectory(View(), d, k, e, l)))
      ensures r != 0 ==> View() == old(View())
      ensures r == -EINVAL <==> k >= 0 && l < 0 && writable && old(IsDir(View(), Slot(View(), d, k).ino))
                                && Within(old(View()), e, Slot(old(View()), d, k).ino)
      ensures r == -ENOENT <==> k < 0
      ensures k >= 0 && !old(SameInode(View(), d, k, e, l)) ==> var fs, c := old(View()), Slot(old(View()), d, k).ino;
                && (r == -EEXIST <==> IsDir(fs, c) && l >= 0)
                && (r == -EACCES <==> IsDir(fs, c) && l < 0 && !writable)
                && (r == -EIO <==> IsDir(fs, c) && l < 0 && writable && !Within(fs, e, c) && Parent(fs, c) != d)
      ensures r in {0, -ENOENT, -EEXIST, -EACCES, -EINVAL, -EIO, -ENOSPC}
      ensures r == 0 <==>
                k >= 0 && (old(SameInode(View(), d, k, e, l))
                  || old(Movable(View(), d, k, e, l, name2, writable, room)))
      ensures r == 0 ==> Renamed(old(View()), View(), d, k, e, l, m, Trunc(name2))
    {
      ghost var fs := View();
      hide Tree, Found, Hollow, Renamed, CanAdd;
      m := 0;
      var f := FindEntry(d, name);
      var g := FindEntry(e, name2);
      k, l := f, g;
      FoundRange(fs, d, Trunc(name), f);
      FoundRange(fs, e, Trunc(name2), g);
      if f < 0 { return -ENOENT, k, l, m; }
      var c := SlotsOf(d)[f].ino;
      assert c == Slot(fs, d, f).ino;
      EntryKnown(fs, d, f);
      if g >= 0 && SlotsOf(e)[g].ino == c {
        RenamedSame(fs, d, f, e, g, Trunc(name2));
        return 0, k, l, m;
      }
      if DirAt(c) {
        if g >= 0 { return -EEXIST, k, l, m; }
        if !writable { return -EACCES, k, l, m; }
        var below := Subdir(e, c);
        if below { return -EINVAL, k, l, m; }
        ParentSlot(fs, c);
        if SlotsOf(c)[1].ino != d { return -EIO, k, l, m; }
        var i := AddEntry(e, name2, room);
        if i < 0 { return -ENOSPC, k, l, m; }
        m := i;
        MoveAfterAdd(fs, View(), d, f, e, i, Trunc(name2));
        RelinkDir(d, f, e, i, c, Trunc(name2));
        RenamedDir(fs, View(), d, f, e, g, i, Trunc(name2));
      } else if g < 0 {
        var i := AddEntry(e, name2, room);
        if i < 0 { return -ENOSPC, k, l, m; }
        m := i;
        FileAfterAdd(fs, View(), d, f, e, i, Trunc(name2));
        RelinkFile(d, f, e, i, c);
        RenamedFile(fs, View(), d, f, e, g, i, Trunc(name2));
      } else {
        m := g;
        var n := SlotsOf(e)[g].ino;
        assert n == Slot(fs, e, g).ino;
        EntryKnown(fs, e, g);
        FileOver(fs, d, f, e, g);
        RelinkFile(d, f, e, g, c);
        LoseLink(n);
        RenamedOver(fs, View(), d, f, e, g, Trunc(name2));
      }
      r := 0;
    }

    /** The stores of do_minix_rename for a directory. */
    method RelinkDir(d: nat, k: nat, e: nat, l: nat, c: nat, name: string)
      requires DirAt(d) && k < Size(View(), d) && DirAt(e) && l < Size(View(), e) && Slot(View(), e, l).name == name
      requires DirAt(c) && c == Slot(View(), d, k).ino && Size(View(), c) > 1 && c in depth && e in depth
               && (d, k) != (e, l)
      modifies this
      ensures View() == MoveDir(old(View()), d, k, e, l, name)
    {
      var s := SlotsOf(d);
      nodes := nodes[d := nodes[d].(slots := s[k := s[k].(ino := 0)])];
      s := SlotsOf(e);
      nodes := nodes[e := nodes[e].(slots := s[l := s[l].(ino := c)])];
      s := SlotsOf(c);
      nodes := nodes[c := nodes[c].(slots := s[1 := s[1].(ino := e)])];
      nodes := nodes[d := nodes[d].(nlink := nodes[d].nlink - 1)];
      nodes := nodes[e := nodes[e].(nlink := nodes[e].nlink + 1)];
      depth, at := Shifted(old(View()), c, e), at[c := l];
    }

    /** The stores of do_minix_rename to the two entries. */
    method RelinkFile(d: nat, k: nat, e: nat, l: nat, c: nat)
      requires DirAt(d) && k < Size(View(), d) && DirAt(e) && l < Size(View(), e) && c == Slot(View(), d, k).ino
      modifies this
      ensures View() == MoveFile(old(View()), d, k, e, l)
    {
      var s := SlotsOf(d);
      nodes := nodes[d := nodes[d].(slots := s[k := s[k].(ino := 0)])];
      s := SlotsOf(e);
      nodes := nodes[e := nodes[e].(slots := s[l := s[l].(ino := c)])];
    }
  }
}
