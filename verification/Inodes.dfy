/** Files as inodes: directories hold names, names lead to inodes, and a walk goes name by name. */
module Inodes {
  import opened Options

  type Ino = nat

  const SLASH: int := '/' as int

  /** One component of a path. */
  type Name = s: seq<int> | SLASH !in s

  datatype Inode = Regular(bytes: seq<int>) | Dir(entries: map<Name, Ino>) | Link(target: seq<Name>) | Special

  type Inodes = map<Ino, Inode>

  datatype Kind = File | Directory | Symlink | Other

  /** What `fstatat` without following reports. */
  function KindOf(inode: Inode): Kind {
    match inode
    case Regular(_) => File
    case Dir(_) => Directory
    case Link(_) => Symlink
    case Special => Other
  }

  /** The kind tells exactly what the inode is; a link is never what it leads to. */
  predicate IsOfKind(inode: Inode, kind: Kind) {
    && (kind.File? <==> inode.Regular?) && (kind.Directory? <==> inode.Dir?)
    && (kind.Symlink? <==> inode.Link?) && (kind.Other? <==> inode.Special?)
  }

  lemma KindIs(inode: Inode, kind: Kind)
    ensures IsOfKind(inode, kind) <==> kind == KindOf(inode)
  {
  }

  predicate IsDir(fs: Inodes, i: Ino) {
    i in fs && fs[i].Dir?
  }

  predicate HasEntry(fs: Inodes, d: Ino, name: Name) {
    IsDir(fs, d) && name in fs[d].entries && fs[d].entries[name] in fs
  }

  function At(fs: Inodes, d: Ino, name: Name): Ino
    requires HasEntry(fs, d, name)
  {
    fs[d].entries[name]
  }

  /** Name by name through directories; a link is an end, not a way. */
  function Walk(fs: Inodes, d: Ino, names: seq<Name>): Option<Ino> {
    if names == [] then if d in fs then Some(d) else None
    else
      var w, last := Walk(fs, d, names[..|names| - 1]), names[|names| - 1];
      if w.Some? && HasEntry(fs, w.value, last) then Some(At(fs, w.value, last)) else None
  }

  /** A directory, or whatever a link in directory `d` leads to: what an open without no-follow does. */
  function Followed(fs: Inodes, d: Ino, i: Ino): Ino {
    if i in fs && fs[i].Link? && Walk(fs, d, fs[i].target).Some? then Walk(fs, d, fs[i].target).value else i
  }

  /** A filesystem: entries lead to inodes, no directory has two names or a name inside itself. */
  ghost predicate Sane(fs: Inodes, rank: Ino -> nat) {
    && (forall d, n :: IsDir(fs, d) && n in fs[d].entries ==> n != [] && HasEntry(fs, d, n))
    && (forall d, n :: HasEntry(fs, d, n) && IsDir(fs, At(fs, d, n)) ==> rank(At(fs, d, n)) < rank(d))
    && (forall d, n, e, m ::
        HasEntry(fs, d, n) && HasEntry(fs, e, m) && At(fs, d, n) == At(fs, e, m) && IsDir(fs, At(fs, d, n)) ==>
          d == e && n == m)
  }

  /** Some walk from `d` ends at `i`. */
  ghost predicate Reached(fs: Inodes, d: Ino, i: Ino) {
    exists names :: Walk(fs, d, names) == Some(i)
  }

  // ---------------------------------------------------------------- walks

  lemma OneStepMore(fs: Inodes, d: Ino, names: seq<Name>, n: Name)
    ensures Walk(fs, d, names + [n]) ==
            var w := Walk(fs, d, names);
            if w.Some? && HasEntry(fs, w.value, n) then Some(At(fs, w.value, n)) else None
  {
    assert (names + [n])[..|names|] == names;
  }

  lemma {:induction false} WalkOn(fs: Inodes, d: Ino, names: seq<Name>, e: Ino, more: seq<Name>)
    requires Walk(fs, d, names) == Some(e)
    ensures Walk(fs, d, names + more) == Walk(fs, e, more)
  {
    if more == [] {
      assert names + more == names;
    } else {
      var front, last := more[..|more| - 1], more[|more| - 1];
      WalkOn(fs, d, names, e, front);
      OneStepMore(fs, d, names + front, last);
      assert names + front + [last] == names + more;
    }
  }

  lemma {:induction false} RankFalls(fs: Inodes, rank: Ino -> nat, d: Ino, names: seq<Name>, i: Ino)
    requires Sane(fs, rank) && Walk(fs, d, names) == Some(i) && IsDir(fs, i)
    ensures rank(i) + |names| <= rank(d)
  {
    if names != [] {
      var w := Walk(fs, d, names[..|names| - 1]).value;
      RankFalls(fs, rank, d, names[..|names| - 1], w);
    }
  }

  /** One walk at most leads to a directory. */
  lemma {:induction false} OneWay(fs: Inodes, rank: Ino -> nat, d: Ino, a: seq<Name>, b: seq<Name>, i: Ino)
    requires Sane(fs, rank) && Walk(fs, d, a) == Some(i) && Walk(fs, d, b) == Some(i) && IsDir(fs, i)
    ensures a == b
    decreases |a|
  {
    if a == [] || b == [] {
      RankFalls(fs, rank, d, a, i);
      RankFalls(fs, rank, d, b, i);
    } else {
      var v, w := Walk(fs, d, a[..|a| - 1]).value, Walk(fs, d, b[..|b| - 1]).value;
      assert HasEntry(fs, v, a[|a| - 1]) && HasEntry(fs, w, b[|b| - 1]);
      OneWay(fs, rank, d, a[..|a| - 1], b[..|b| - 1], v);
      assert a == a[..|a| - 1] + [a[|a| - 1]] && b == b[..|b| - 1] + [b[|b| - 1]];
    }
  }

  // ---------------------------------------------------------------- frames

  /** A walk does not depend on what is not above its end. */
  lemma {:induction false} WalkAbove(fs: Inodes, gs: Inodes, rank: Ino -> nat, d: Ino, names: seq<Name>, i: Ino)
    requires Sane(fs, rank) && gs.Keys == fs.Keys && Walk(fs, d, names) == Some(i) && IsDir(fs, i)
    requires forall j :: IsDir(fs, j) && rank(j) > rank(i) ==> gs[j] == fs[j]
    ensures Walk(gs, d, names) == Some(i)
  {
    if names != [] {
      var front, last := names[..|names| - 1], names[|names| - 1];
      var w := Walk(fs, d, front).value;
      assert HasEntry(fs, w, last);
      WalkAbove(fs, gs, rank, d, front, w);
    }
  }

  /** A walk depends only on what it can reach. */
  lemma {:induction false} WalkWithin(fs: Inodes, gs: Inodes, d: Ino, names: seq<Name>)
    requires gs.Keys == fs.Keys && forall j :: j in fs && Reached(fs, d, j) ==> gs[j] == fs[j]
    ensures Walk(gs, d, names) == Walk(fs, d, names)
  {
    if names != [] {
      var front := names[..|names| - 1];
      WalkWithin(fs, gs, d, front);
      if Walk(fs, d, front).Some? {
        assert Reached(fs, d, Walk(fs, d, front).value);
      }
    }
  }

  lemma SameReach(fs: Inodes, gs: Inodes, d: Ino, i: Ino)
    requires gs.Keys == fs.Keys && forall j :: j in fs && Reached(fs, d, j) ==> gs[j] == fs[j]
    ensures Reached(gs, d, i) <==> Reached(fs, d, i)
  {
    forall names ensures Walk(gs, d, names) == Walk(fs, d, names) {
      WalkWithin(fs, gs, d, names);
    }
  }

  // ---------------------------------------------------------------- taking a name away

  /** What is left once the last name of `path` is gone with everything below it: that name's directory has
      lost it, directories reached through it hold nothing, and every other inode is as it was. */
  ghost function Detached(fs: Inodes, root: Ino, path: seq<Name>): (gs: Inodes)
    requires path != [] && Walk(fs, root, path).Some?
    ensures gs.Keys == fs.Keys
  {
    var parent, target := Walk(fs, root, path[..|path| - 1]).value, Walk(fs, root, path).value;
    map i | i in fs ::
      if IsDir(fs, i) && Reached(fs, target, i) then Dir(map[])
      else if i == parent then Dir(fs[i].entries - {path[|path| - 1]})
      else fs[i]
  }

  lemma DetachedAt(fs: Inodes, root: Ino, path: seq<Name>, parent: Ino, target: Ino, i: Ino)
    requires path != [] && Walk(fs, root, path) == Some(target) && Walk(fs, root, path[..|path| - 1]) == Some(parent)
             && i in fs
    ensures IsDir(fs, parent)
    ensures Detached(fs, root, path)[i] ==
            if IsDir(fs, i) && Reached(fs, target, i) then Dir(map[])
            else if i == parent then Dir(fs[i].entries - {path[|path| - 1]})
            else fs[i]
  {
  }

  lemma DetachedIsSane(fs: Inodes, rank: Ino -> nat, gs: Inodes)
    requires Sane(fs, rank) && gs.Keys == fs.Keys
    requires forall i :: i in fs ==> gs[i] == fs[i] || (fs[i].Dir? && gs[i].Dir? && Fewer(gs[i].entries, fs[i].entries))
    ensures Sane(gs, rank)
  {
    assert forall d, n :: HasEntry(gs, d, n) ==> HasEntry(fs, d, n) && At(gs, d, n) == At(fs, d, n);
    assert forall i :: IsDir(gs, i) <==> IsDir(fs, i);
  }

  predicate Fewer(a: map<Name, Ino>, b: map<Name, Ino>) {
    forall n :: n in a ==> n in b && a[n] == b[n]
  }
}
