/** What the walk of `PathWalk` finds (fs/namei.c, fs/minix/namei.c): paths are walked name by name from where they
    start, links are read where they stand, and only a relative path depends on the working directory. */
module PathMeaning {
  import opened Kernel
  import opened PathWalk

  predicate Absolute(path: string) {
    path != "" && path[0] == '/'
  }

  predicate Plain(name: string) {
    forall i | 0 <= i < |name| :: name[i] != '/'
  }

  /** The entry `name` of a directory, and what it leads to if it is a link. */
  function Entered(t: Disk, dir: nat, name: string, budget: nat): nat {
    var inode := LookupOf(t, dir, name);
    if inode == 0 then 0 else FollowOf(t, dir, inode, budget)
  }

  lemma {:induction false} SlashPlain(name: string)
    requires Plain(name)
    ensures Slash(name) == |name|
  {
    if name != "" { SlashPlain(name[1..]); }
  }

  lemma {:induction false} SlashJoin(p: string, q: string)
    ensures Slash(p + "/" + q) == Slash(p)
  {
    if p == "" || p[0] == '/' {
    } else {
      assert (p + "/" + q)[1..] == p[1..] + "/" + q;
      SlashJoin(p[1..], q);
    }
  }

  /** A name without a slash is looked up in the directory it starts from. */
  lemma NameAlone(t: Disk, name: string, base: nat, follow: bool, budget: nat)
    requires Plain(name) && base != 0
    ensures NameiOf(t, name, base, follow, budget)
            == if follow then Entered(t, base, name, budget) else LookupOf(t, base, name)
  {
    SlashPlain(name);
    hide LookupOf;
  }

  /** The directory part of a longer path: the shorter path is walked first, to its end. */
  lemma {:induction false} DirJoin(t: Disk, p: string, q: string, base: nat, budget: nat)
    requires base != 0
    ensures var (dir, name) := DirOf(t, p, base, budget);
            var d := if dir == 0 then 0 else Entered(t, dir, name, budget);
            DirOf(t, p + "/" + q, base, budget) == if d == 0 then (0, "") else DirOf(t, q, d, budget)
    decreases |p|
  {
    hide LookupOf, FollowOf;
    var i, path := Slash(p), p + "/" + q;
    SlashJoin(p, q);
    assert path[..i] == p[..i];
    if i == |p| {
      assert path[i + 1..] == q && path[..i] == p;
    } else {
      assert path[i + 1..] == p[i + 1..] + "/" + q;
      var next := LookupOf(t, base, p[..i]);
      var b := if next == 0 then 0 else FollowOf(t, base, next, budget);
      if b != 0 { DirJoin(t, p[i + 1..], q, b, budget); }
    }
  }

  /** "p/q" is "q" from where "p" leads. */
  lemma PathJoin(t: Disk, p: string, q: string, base: nat, follow: bool, budget: nat)
    requires Sane(t) && p != "" && !Absolute(q)
    ensures var d := NameiOf(t, p, base, true, budget);
            NameiOf(t, p + "/" + q, base, follow, budget) == if d == 0 then 0 else NameiOf(t, q, d, follow, budget)
  {
    var path := p + "/" + q;
    assert Rest(path) == Rest(p) + "/" + q && Start(t, path, base) == Start(t, p, base);
    DirJoin(t, Rest(p), q, Start(t, p, base), budget);
    hide LookupOf, FollowOf, DirOf;
  }

  /** An absolute path starts from the root, wherever it is read. */
  lemma FromRoot(t: Disk, path: string, base: nat, other: nat, follow: bool, budget: nat)
    requires Absolute(path)
    ensures NameiOf(t, path, base, follow, budget) == NameiOf(t, path, other, follow, budget)
  {
    hide LookupOf, FollowOf, DirOf;
  }

  /** A relative path that is given no directory starts from the working directory. */
  lemma FromPwd(t: Disk, path: string, follow: bool, budget: nat)
    requires Sane(t) && !Absolute(path)
    ensures NameiOf(t, path, 0, follow, budget) == NameiOf(t, path, t.pwd, follow, budget)
  {
    hide LookupOf, FollowOf, DirOf;
  }

  // ---------------------------------------------------------------- the working directory

  /** Only a relative path without a base depends on the working directory. */
  lemma {:induction false} AnyPwd(t: Disk, w: nat, path: string, base: nat, follow: bool, budget: nat)
    requires Sane(t) && (base != 0 || Absolute(path))
    ensures NameiOf(t.(pwd := w), path, base, follow, budget) == NameiOf(t, path, base, follow, budget)
    decreases budget, 2, 0
  {
    var start := Start(t, path, base);
    DirAnyPwd(t, w, Rest(path), start, budget);
    var (dir, name) := DirOf(t, Rest(path), start, budget);
    LookupAnyPwd(t, w, dir, name);
    var inode := LookupOf(t, dir, name);
    hide DirOf, LookupOf;
    if dir != 0 && inode != 0 { FollowAnyPwd(t, w, dir, inode, budget); }
    hide FollowOf;
  }

  lemma {:induction false} FollowAnyPwd(t: Disk, w: nat, dir: nat, inode: nat, budget: nat)
    requires Sane(t) && dir != 0
    ensures FollowOf(t.(pwd := w), dir, inode, budget) == FollowOf(t, dir, inode, budget)
    decreases budget, 0, 0
  {
    hide NameiOf;
    if inode in t.links && budget > 0 { AnyPwd(t, w, t.links[inode], dir, true, budget - 1); }
  }

  lemma {:induction false} DirAnyPwd(t: Disk, w: nat, path: string, base: nat, budget: nat)
    requires Sane(t) && base != 0
    ensures DirOf(t.(pwd := w), path, base, budget) == DirOf(t, path, base, budget)
    decreases budget, 1, |path|
  {
    hide FollowOf, LookupOf;
    var i := Slash(path);
    if i < |path| {
      LookupAnyPwd(t, w, base, path[..i]);
      var next := LookupOf(t, base, path[..i]);
      if next != 0 {
        FollowAnyPwd(t, w, base, next, budget);
        var b := FollowOf(t, base, next, budget);
        if b != 0 { DirAnyPwd(t, w, path[i + 1..], b, budget); }
      }
    }
  }

  lemma LookupAnyPwd(t: Disk, w: nat, dir: nat, name: string)
    ensures LookupOf(t.(pwd := w), dir, name) == LookupOf(t, dir, name)
  {
  }

  // ---------------------------------------------------------------- links

  /** A link whose text is one name stands for the entry of that name in the directory the link was found in. */
  lemma LinkToName(t: Disk, dir: nat, inode: nat, budget: nat)
    requires dir != 0 && inode in t.links && Plain(t.links[inode]) && budget > 0
    ensures FollowOf(t, dir, inode, budget) == Entered(t, dir, t.links[inode], budget - 1)
  {
    NameAlone(t, t.links[inode], dir, true, budget - 1);
    hide NameiOf, LookupOf;
  }

  /** A link with a relative text of several names is walked from there, one with an absolute text from the root. */
  lemma LinkToPath(t: Disk, dir: nat, inode: nat, budget: nat, p: string, q: string)
    requires Sane(t) && dir != 0 && inode in t.links && budget > 0
    requires t.links[inode] == p + "/" + q && p != "" && !Absolute(q)
    ensures var d := NameiOf(t, p, dir, true, budget - 1);
            FollowOf(t, dir, inode, budget) == if d == 0 then 0 else NameiOf(t, q, d, true, budget - 1)
  {
    PathJoin(t, p, q, dir, true, budget - 1);
    hide NameiOf;
  }

  lemma LinkFromRoot(t: Disk, dir: nat, other: nat, inode: nat, budget: nat)
    requires inode in t.links && Absolute(t.links[inode])
    ensures FollowOf(t, dir, inode, budget) == FollowOf(t, other, inode, budget)
  {
    if budget > 0 { FromRoot(t, t.links[inode], dir, other, true, budget - 1); }
    hide NameiOf;
  }

  /** Each link of the chain names the next in the directory `dir`; the last is no link. */
  predicate LinkChain(t: Disk, dir: nat, chain: seq<nat>) {
    && chain != []
    && if |chain| == 1 then chain[0] !in t.links
       else
         && chain[0] in t.links && Plain(t.links[chain[0]]) && chain[1] != 0
         && LookupOf(t, dir, t.links[chain[0]]) == chain[1] && LinkChain(t, dir, chain[1..])
  }

  /** A chain of links is followed to its end if it is no longer than the budget, which starts at six. */
  lemma {:induction false} ChainFollowed(t: Disk, dir: nat, chain: seq<nat>, budget: nat)
    requires dir != 0 && LinkChain(t, dir, chain)
    ensures FollowOf(t, dir, chain[0], budget) == if |chain| - 1 <= budget then chain[|chain| - 1] else 0
    decreases |chain|
  {
    hide LookupOf;
    if |chain| > 1 && budget > 0 {
      LinkToName(t, dir, chain[0], budget);
      ChainFollowed(t, dir, chain[1..], budget - 1);
    }
  }

  // ---------------------------------------------------------------- "..", mount points

  /** A name but ".." in a directory: it must be one that may be searched and has the entry; the entry of a mount point
      leads to what is mounted there. */
  lemma LookupStep(t: Disk, dir: nat, name: string)
    requires Sane(t) && dir != 0 && name != "" && name != ".."
    ensures LookupOf(t, dir, name) != 0 <==> dir in t.search && dir in t.dirs && (dir, name) in t.entries
    ensures LookupOf(t, dir, name) != 0 && t.entries[(dir, name)] !in t.mounted ==>
              LookupOf(t, dir, name) == t.entries[(dir, name)]
    ensures LookupOf(t, dir, name) != 0 && t.entries[(dir, name)] in t.mounted ==>
              LookupOf(t, dir, name) == t.mounted[t.entries[(dir, name)]]
    ensures LookupError(t, dir, name) == -EACCES <==> dir !in t.search
    ensures LookupError(t, dir, name) == -ENOENT <==> dir in t.search && (dir !in t.dirs || (dir, name) !in t.entries)
  {
  }

  /** ".." of the root is the root's own "."; ".." of a mounted root is that of the directory it covers. */
  lemma DotDot(t: Disk, dir: nat)
    requires Sane(t) && dir != 0
    ensures dir == t.root ==> LookupOf(t, dir, "..") == LookupOf(t, dir, ".")
    ensures dir != t.root && dir !in t.covered && dir in t.search && dir in t.dirs && (dir, "..") in t.entries ==>
              LookupOf(t, dir, "..") == Cross(t, t.entries[(dir, "..")])
    ensures dir != t.root && dir in t.covered && t.covered[dir] in t.search && t.covered[dir] in t.dirs
            && t.covered[dir] != 0 && (t.covered[dir], "..") in t.entries ==>
              LookupOf(t, dir, "..") == Cross(t, t.entries[(t.covered[dir], "..")])
  {
  }

  /** Into a mounted volume by its mount point and out again by "..": back in the directory one came from. */
  lemma DownAndUp(t: Disk, dir: nat, name: string, point: nat)
    requires Sane(t) && dir != 0 && name != "" && name != ".." && point != 0
    requires dir in t.search && dir in t.dirs && (dir, name) in t.entries && t.entries[(dir, name)] == point
    requires point in t.mounted && t.mounted[point] in t.covered && t.covered[t.mounted[point]] == point
    requires t.mounted[point] != t.root && point in t.search && point in t.dirs && dir !in t.mounted
    requires (point, "..") in t.entries && t.entries[(point, "..")] == dir
    ensures var down := LookupOf(t, dir, name); down == t.mounted[point] && LookupOf(t, down, "..") == dir
  {
  }
}
