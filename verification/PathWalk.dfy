/** Path names (fs/namei.c: lookup, follow_link, dir_namei, _namei, open_namei; fs/minix/namei.c: minix_lookup,
    minix_follow_link; the counts of fs/inode.c: iget, iput). */
module PathWalk {
  import opened Kernel

  /** What the walk reads, fixed while it runs: directory entries, link texts, directories, inodes the process may
      search, mount points both ways, the root and the working directory. Inode 0 is NULL. */
  datatype Disk = Disk(entries: map<(nat, string), nat>, links: map<nat, string>, dirs: set<nat>, search: set<nat>,
                       covered: map<nat, nat>, mounted: map<nat, nat>, root: nat, pwd: nat)

  const MAX_LINKS := 6

  predicate Sane(t: Disk) {
    && t.root != 0 && t.pwd != 0
    && (forall k | k in t.entries :: t.entries[k] != 0) && forall i | i in t.mounted :: t.mounted[i] != 0
  }

  // ---------------------------------------------------------------- what a path means

  /** iget: an inode that is mounted on stands for the root of what is mounted there. */
  function Cross(t: Disk, i: nat): nat {
    if i in t.mounted then t.mounted[i] else i
  }

  /** One step down from a directory; 0 if it fails. ".." stops at the root and leaves a mounted volume. */
  function LookupOf(t: Disk, dir: nat, name: string): nat {
    var up := name == ".." && dir != t.root && dir in t.covered;
    var d := if up then t.covered[dir] else dir;
    var n := if name == ".." && dir == t.root then "." else name;
    if d == 0 || d !in t.search then 0 else if n == "" then d
    else if d !in t.dirs || (d, n) !in t.entries then 0 else Cross(t, t.entries[(d, n)])
  }

  /** The error code of a failed step. */
  function LookupError(t: Disk, dir: nat, name: string): int {
    var d := if name == ".." && dir != t.root && dir in t.covered then t.covered[dir] else dir;
    if LookupOf(t, dir, name) != 0 then 0 else if d != 0 && d !in t.search then -EACCES else -ENOENT
  }

  function Slash(path: string): (i: nat)
    ensures i <= |path| && (i < |path| ==> path[i] == '/') && forall j | 0 <= j < i :: path[j] != '/'
  {
    if path == "" || path[0] == '/' then 0 else 1 + Slash(path[1..])
  }

  /** The directory of a path and its last name, from `base` on. */
  function DirOf(t: Disk, path: string, base: nat, budget: nat): (nat, string)
    decreases budget, 1, |path|
  {
    var i := Slash(path);
    if i == |path| then (base, path)
    else
      var next := LookupOf(t, base, path[..i]);
      var b := if next == 0 then 0 else FollowOf(t, base, next, budget);
      if b == 0 then (0, "") else DirOf(t, path[i + 1..], b, budget)
  }

  /** A link is followed while the budget lasts. */
  function FollowOf(t: Disk, dir: nat, inode: nat, budget: nat): nat
    decreases budget, 0, 0
  {
    if inode !in t.links then inode else if budget == 0 then 0 else NameiOf(t, t.links[inode], dir, true, budget - 1)
  }

  function Start(t: Disk, path: string, base: nat): nat {
    if path != "" && path[0] == '/' then t.root else if base == 0 then t.pwd else base
  }

  function Rest(path: string): string {
    if path != "" && path[0] == '/' then path[1..] else path
  }

  /** The inode a path names; 0 if none. */
  function NameiOf(t: Disk, path: string, base: nat, follow: bool, budget: nat): nat
    decreases budget, 2, 0
  {
    var (dir, name) := DirOf(t, Rest(path), Start(t, path, base), budget);
    var inode := if dir == 0 then 0 else LookupOf(t, dir, name);
    if inode == 0 then 0 else if follow then FollowOf(t, dir, inode, budget) else inode
  }

  // ---------------------------------------------------------------- the walk with its references

  /** i_count of an inode. */
  function Count(m: map<nat, nat>, i: nat): nat {
    if i in m then m[i] else 0
  }

  function Got(i: nat, j: nat): int {
    if i == j && j != 0 then 1 else 0
  }

  /** References to `a` and `b` have been given up and one to `r` has been taken; 0 stands for none. */
  ghost predicate Traded(m: map<nat, nat>, m': map<nat, nat>, a: nat, b: nat, r: nat) {
    forall i: nat :: Count(m', i) == Count(m, i) - Got(i, a) - Got(i, b) + Got(i, r)
  }

  /** One reference to `a` and one to `b` are there to be given up. */
  predicate Holds(m: map<nat, nat>, a: nat, b: nat) {
    (a != 0 ==> Count(m, a) >= Got(a, a) + Got(a, b)) && (b != 0 ==> Count(m, b) >= Got(b, a) + Got(b, b))
  }

  lemma TradedThen(m: map<nat, nat>, m1: map<nat, nat>, m2: map<nat, nat>, a: nat, b: nat, x: nat, r: nat)
    requires Traded(m, m1, a, b, x) && Traded(m1, m2, x, 0, r)
    ensures Traded(m, m2, a, b, r)
  {
  }

  /** The process and the in-core inodes. */
  class Walker {
    const disk: Disk
    var count: map<nat, nat>
    var linkCount: nat

    ghost predicate Valid()
      reads this
    {
      Sane(disk) && linkCount <= MAX_LINKS
    }

    ghost function Budget(): nat
      requires Valid()
      reads this
    {
      MAX_LINKS - linkCount
    }

    constructor (disk: Disk)
      requires Sane(disk)
      ensures Valid() && this.disk == disk && linkCount == 0
    {
      this.disk, linkCount := disk, 0;
      count := if disk.root == disk.pwd then map[disk.root := 2] else map[disk.root := 1, disk.pwd := 1];
    }

    /** iput: the reference must be there, or the source would panic. */
    method Iput(i: nat)
      requires Valid() && Holds(count, i, 0)
      modifies `count
      ensures Valid() && Traded(old(count), count, i, 0, 0)
    {
      if i != 0 {
        count := count[i := count[i] - 1];
      }
    }

    /** i_count++ */
    method Take(i: nat)
      requires Valid() && i != 0
      modifies `count
      ensures Valid() && Traded(old(count), count, 0, 0, i)
    {
      count := count[i := Count(count, i) + 1];
    }

    method Iget(i: nat) returns (r: nat)
      requires Valid() && i != 0
      modifies `count
      ensures Valid() && r == Cross(disk, i) && r != 0 && Traded(old(count), count, 0, 0, r)
    {
      Take(i);
      r := i;
      if i in disk.mounted {
        Iput(i);
        r := disk.mounted[i];
        Take(r);
      }
    }

    /** lookup and minix_lookup: they use up the reference to the directory. */
    method Lookup(dir: nat, name: string) returns (error: int, r: nat)
      requires Valid() && dir != 0 && Holds(count, dir, 0)
      modifies `count
      ensures Valid() && r == LookupOf(disk, dir, name) && error == LookupError(disk, dir, name)
      ensures Traded(old(count), count, dir, 0, r)
    {
      hide Count;
      var d, n := dir, name;
      if n == ".." {
        if d == disk.root {
          n := ".";
        } else if d in disk.covered {
          Iput(d);
          d := disk.covered[d];
          if d != 0 { Take(d); }
        }
      }
      if d == 0 { return -ENOENT, 0; }
      if d !in disk.search {
        Iput(d);
        return -EACCES, 0;
      }
      if n == "" { return 0, d; }
      if d !in disk.dirs || (d, n) !in disk.entries {
        Iput(d);
        return -ENOENT, 0;
      }
      error := 0;
      r := Iget(disk.entries[(d, n)]);
      Iput(d);
    }

    /** follow_link and minix_follow_link: they use up both references. */
    method FollowLink(dir: nat, inode: nat) returns (r: nat)
      requires Valid() && dir != 0 && inode != 0 && Holds(count, dir, inode)
      modifies `count, `linkCount
      ensures Valid() && linkCount == old(linkCount) && r == FollowOf(disk, dir, inode, Budget())
      ensures Traded(old(count), count, dir, inode, r)
      decreases MAX_LINKS - linkCount, 0
    {
      hide Count, NameiOf;
      if inode !in disk.links {
        Iput(dir);
        return inode;
      }
      if linkCount > 5 {
        Iput(dir);
        Iput(inode);
        return 0;
      }
      Iput(inode);
      linkCount := linkCount + 1;
      r := Namei(disk.links[inode], dir, true);
      linkCount := linkCount - 1;
    }

    /** The lines that dir_namei and _namei share: the directory is kept for the link while its name is looked up. */
    method Descend(dir: nat, name: string, follow: bool) returns (r: nat)
      requires Valid() && dir != 0 && Holds(count, dir, 0)
      modifies `count, `linkCount
      ensures Valid() && linkCount == old(linkCount)
      ensures var next := LookupOf(disk, dir, name);
              r == if next == 0 then 0 else if follow then FollowOf(disk, dir, next, Budget()) else next
      ensures Traded(old(count), count, dir, 0, r)
      decreases MAX_LINKS - linkCount, 1
    {
      hide Count, FollowOf, LookupOf;
      ghost var m := count;
      Take(dir);
      ghost var m1 := count;
      HoldsMore(m, m1, dir);
      var error;
      error, r := Lookup(dir, name);
      ghost var m2 := count;
      HoldsBoth(m, m1, m2, dir, r);
      if r == 0 {
        Iput(dir);
        return 0;
      }
      if follow {
        ghost var inode := r;
        r := FollowLink(dir, r);
        TradedLink(m, m2, count, dir, inode, r);
      } else {
        Iput(dir);
      }
    }

    /** dir_namei: it uses up the reference to `base`, if there is one. */
    method DirNamei(path: string, base: nat) returns (dir: nat, name: string)
      requires Valid() && Holds(count, base, 0)
      modifies `count, `linkCount
      ensures Valid() && linkCount == old(linkCount)
      ensures (dir, name) == DirOf(disk, Rest(path), Start(disk, path, base), Budget())
      ensures Traded(old(count), count, base, 0, dir)
      decreases MAX_LINKS - linkCount, 2
    {
      hide Count, FollowOf, LookupOf;
      dir, name := base, path;
      if dir == 0 {
        dir := disk.pwd;
        Take(dir);
      }
      if name != "" && name[0] == '/' {
        HoldsOwn(old(count), count, base, dir);
        Iput(dir);
        dir := disk.root;
        name := name[1..];
        Take(dir);
      }
      ghost var goal := DirOf(disk, name, dir, Budget());
      while true
        invariant Valid() && linkCount == old(linkCount) && dir != 0
        invariant Traded(old(count), count, base, 0, dir)
        invariant DirOf(disk, name, dir, Budget()) == goal
        decreases |name|
      {
        ghost var m, d := count, dir;
        var i := Slash(name);
        if i == |name| { return; }
        HoldsOwn(old(count), m, base, dir);
        dir := Descend(dir, name[..i], true);
        TradedThen(old(count), m, count, base, 0, d, dir);
        name := name[i + 1..];
        if dir == 0 { return 0, ""; }
      }
    }

    /** _namei: whatever the links say, cycles included, the walk ends; the references all come back but one to
        the inode it returns. */
    method Namei(path: string, base: nat, follow: bool) returns (r: nat)
      requires Valid() && Holds(count, base, 0)
      modifies `count, `linkCount
      ensures Valid() && linkCount == old(linkCount) && r == NameiOf(disk, path, base, follow, Budget())
      ensures Traded(old(count), count, base, 0, r)
      decreases MAX_LINKS - linkCount, 3
    {
      hide Count, FollowOf, LookupOf, DirOf;
      var dir, name := DirNamei(path, base);
      if dir == 0 { return 0; }
      ghost var m := count;
      HoldsOwn(old(count), m, base, dir);
      r := Descend(dir, name, follow);
      TradedThen(old(count), m, count, base, 0, dir, r);
    }

    /** open_namei.  `writes` is the access mode, `mayWrite` and `mayOpen` are the permission checks, `made` the
        inode minix_create would make, 0 if it cannot. Every path through it leaves the references balanced. */
    method OpenNamei(path: string, writes: bool, creat: bool, trunc: bool, excl: bool,
                     mayWrite: bool, mayOpen: bool, made: nat)
      returns (error: int, inode: nat, ghost dir: nat, ghost name: string)
      requires Valid()
      modifies `count, `linkCount
      ensures Valid() && linkCount == old(linkCount)
              && (dir, name) == DirOf(disk, Rest(path), Start(disk, path, 0), Budget())
      ensures Traded(old(count), count, 0, 0, inode) && (error == 0 <==> inode != 0)
      ensures var found := LookupOf(disk, dir, name); var there := FollowOf(disk, dir, found, Budget());
              && (error == 0 <==> dir != 0 && if name == "" then !writes && !creat && !trunc
                                              else if found == 0 then creat && mayWrite && made != 0
                                              else
                                                && !excl && there != 0 && mayOpen
                                                && !(there in disk.dirs && (writes || trunc)))
              && (error == 0 ==> inode == if name == "" then dir else if found == 0 then made else there)
              && (error == -EEXIST <==> dir != 0 && name != "" && found != 0 && excl)
              && (error == -ELOOP <==> dir != 0 && name != "" && found != 0 && !excl && there == 0)
              && (error == -EPERM <==> dir != 0 && name != "" && found != 0 && !excl && there != 0
                                       && (!mayOpen || (there in disk.dirs && (writes || trunc))))
              && (error == -EISDIR <==> dir != 0 && name == "" && (writes || creat || trunc))
              && (error == -ENOSPC <==> dir != 0 && name != "" && found == 0 && creat && mayWrite && made == 0)
              && (error == -EACCES <==> dir != 0 && name != "" && found == 0
                                        && if creat then !mayWrite else LookupError(disk, dir, name) == -EACCES)
              && (error == -ENOENT <==> dir == 0 || (name != "" && found == 0 && !creat
                                                     && LookupError(disk, dir, name) == -ENOENT))
    {
      hide Count, FollowOf, LookupOf, DirOf, Traded, Holds;
      HoldsNone(count);
      error, inode := 0, 0;
      var base, last := DirNamei(path, 0);
      dir, name := base, last;
      if base == 0 { return -ENOENT, 0, dir, name; }
      ghost var m := count;
      HoldsOwn(old(count), m, 0, base);
      if last == "" {
        if !writes && !creat && !trunc { return 0, base, dir, name; }
        Iput(base);
        TradedThen(old(count), m, count, 0, 0, base, 0);
        return -EISDIR, 0, dir, name;
      }
      Take(base);
      ghost var m1 := count;
      HoldsMore(m, m1, base);
      error, inode := Lookup(base, last);
      ghost var m2 := count;
      HoldsBoth(m, m1, m2, base, inode);
      if inode == 0 {
        HoldsFirst(m2, base, inode);
        if !creat || !mayWrite || made == 0 {
          Iput(base);
          TradedBack(old(count), m, m2, count, base);
          return if !creat then error else if !mayWrite then -EACCES else -ENOSPC, 0, dir, name;
        }
        Iput(base);
        TradedBack(old(count), m, m2, count, base);
        ghost var m3 := count;
        Take(made);
        TradedThen(old(count), m3, count, 0, 0, 0, made);
        return 0, made, dir, name;
      }
      if excl {
        HoldsFirst(m2, base, inode);
        Iput(base);
        ghost var m3 := count;
        HoldsRest(m2, m3, base, inode);
        Iput(inode);
        BothBack(old(count), m, m2, m3, count, base, inode);
        return -EEXIST, 0, dir, name;
      }
      ghost var found := inode;
      inode := FollowLink(base, inode);
      TradedLink(m, m2, count, base, found, inode);
      TradedThen(old(count), m, count, 0, 0, base, inode);
      if inode == 0 { return -ELOOP, 0, dir, name; }
      if (inode in disk.dirs && (writes || trunc)) || !mayOpen {
        ghost var m3 := count;
        HoldsOwn(old(count), m3, 0, inode);
        Iput(inode);
        TradedThen(old(count), m3, count, 0, 0, inode, 0);
        return -EPERM, 0, dir, name;
      }
      error := 0;
    }
  }

  lemma HoldsNone(m: map<nat, nat>)
    ensures Holds(m, 0, 0)
  {
  }

  lemma HoldsFirst(m: map<nat, nat>, dir: nat, x: nat)
    requires Holds(m, dir, x)
    ensures Holds(m, dir, 0)
  {
  }

  lemma HoldsRest(m: map<nat, nat>, m1: map<nat, nat>, dir: nat, x: nat)
    requires Holds(m, dir, x) && Traded(m, m1, dir, 0, 0)
    ensures Holds(m1, x, 0)
  {
  }

  lemma BothBack(m0: map<nat, nat>, m: map<nat, nat>, m2: map<nat, nat>, m3: map<nat, nat>, m4: map<nat, nat>,
                 dir: nat, x: nat)
    requires Traded(m0, m, 0, 0, dir) && Traded(m, m2, 0, 0, x) && Traded(m2, m3, dir, 0, 0) && Traded(m3, m4, x, 0, 0)
    ensures Traded(m0, m4, 0, 0, 0)
  {
  }

  lemma TradedBack(m0: map<nat, nat>, m: map<nat, nat>, m2: map<nat, nat>, m3: map<nat, nat>, dir: nat)
    requires Traded(m0, m, 0, 0, dir) && Traded(m, m2, 0, 0, 0) && Traded(m2, m3, dir, 0, 0)
    ensures Traded(m0, m3, 0, 0, 0)
  {
  }

  /** Taking one more leaves two. */
  lemma HoldsMore(m: map<nat, nat>, m1: map<nat, nat>, dir: nat)
    requires Holds(m, dir, 0) && dir != 0 && Traded(m, m1, 0, 0, dir)
    ensures Count(m1, dir) >= 2 && Holds(m1, dir, 0)
  {
  }

  /** What has been traded for is there to be given up. */
  lemma HoldsOwn(m: map<nat, nat>, m1: map<nat, nat>, a: nat, x: nat)
    requires Traded(m, m1, a, 0, x) && Holds(m, a, 0)
    ensures Holds(m1, x, 0)
  {
  }

  lemma HoldsBoth(m: map<nat, nat>, m1: map<nat, nat>, m2: map<nat, nat>, dir: nat, r: nat)
    requires Holds(m, dir, 0) && dir != 0 && Traded(m, m1, 0, 0, dir) && Traded(m1, m2, dir, 0, r)
    ensures Holds(m2, dir, r) && Traded(m, m2, 0, 0, r)
  {
  }

  lemma TradedLink(m: map<nat, nat>, m2: map<nat, nat>, m3: map<nat, nat>, dir: nat, inode: nat, r: nat)
    requires Traded(m, m2, 0, 0, inode) && Traded(m2, m3, dir, inode, r)
    ensures Traded(m, m3, dir, 0, r)
  {
  }
}
