/** What the descriptor-relative operations of `fs/rooted.rs` find on a disk, and what a removal leaves of it. */
module DiskSpec {
  import opened Options
  import opened Lexicographic
  import opened Inodes

  datatype Listed = Listed(name: Name, kind: Kind)

  /** The parent's descriptor: an error where something other than a directory is in the way, nothing where a
      name is missing. */
  function ParentOf(fs: Inodes, root: Ino, path: seq<Name>): Result<Option<Ino>> {
    if path == [] then Err
    else if |path| == 1 then Ok(Some(root))
    else
      var above := ParentOf(fs, root, path[..|path| - 1]);
      if above.Err? || above.value.None? then above
      else if !HasEntry(fs, above.value.value, path[|path| - 2]) then Ok(None)
      else
        var i := At(fs, above.value.value, path[|path| - 2]);
        if IsDir(fs, i) then Ok(Some(i)) else Err
  }

  lemma {:induction false} ParentIsWalk(fs: Inodes, root: Ino, path: seq<Name>)
    requires IsDir(fs, root) && path != []
    ensures var w, p := Walk(fs, root, path[..|path| - 1]), ParentOf(fs, root, path);
            if w.Some? && IsDir(fs, w.value) then p == Ok(Some(w.value)) else p.Err? || p.value.None?
  {
    if |path| == 1 {
      assert path[..0] == [];
    } else {
      var front := path[..|path| - 1];
      ParentIsWalk(fs, root, front);
      assert front[..|front| - 1] == path[..|path| - 2];
    }
  }

  lemma OnlyItself(fs: Inodes, target: Ino, i: Ino)
    requires IsDir(fs, target) ==> fs[target].entries == map[]
    requires Reached(fs, target, i)
    ensures i == target
  {
    var names :| Walk(fs, target, names) == Some(i);
    NoWayOut(fs, target, names);
  }

  /** A name of something without entries is all that goes with it. */
  lemma LeafIsDetached(fs: Inodes, rank: Ino -> nat, root: Ino, path: seq<Name>, p: Ino, target: Ino)
    requires Sane(fs, rank) && path != [] && Walk(fs, root, path) == Some(target)
             && Walk(fs, root, path[..|path| - 1]) == Some(p)
    requires IsDir(fs, target) ==> fs[target].entries == map[]
    ensures IsDir(fs, p) && Detached(fs, root, path) == fs[p := Dir(fs[p].entries - {path[|path| - 1]})]
  {
    var gs, leaf := Detached(fs, root, path), path[|path| - 1];
    assert HasEntry(fs, p, leaf) && At(fs, p, leaf) == target;
    forall i | i in fs ensures gs[i] == if i == p then Dir(fs[p].entries - {leaf}) else fs[i] {
      DetachedAt(fs, root, path, p, target, i);
      if Reached(fs, target, i) {
        OnlyItself(fs, target, i);
      }
    }
  }

  lemma {:induction false} NoWayOut(fs: Inodes, i: Ino, names: seq<Name>)
    requires IsDir(fs, i) ==> fs[i].entries == map[]
    ensures names != [] ==> Walk(fs, i, names).None?
  {
    if |names| > 1 {
      NoWayOut(fs, i, names[..|names| - 1]);
    } else if |names| == 1 {
      assert names[..0] == [];
    }
  }

  lemma ParentStep(path: seq<Name>, n: nat)
    requires 0 < n < |path|
    ensures path[..n + 1][..n] == path[..n] && path[..n + 1][n - 1] == path[n - 1]
  {
  }

  /** Where the walk stops, it stops for every longer path. */
  lemma {:induction false} ParentStops(fs: Inodes, root: Ino, path: seq<Name>, n: nat)
    requires 0 < n <= |path| && (ParentOf(fs, root, path[..n]).Err? || ParentOf(fs, root, path[..n]).value.None?)
    ensures ParentOf(fs, root, path) == ParentOf(fs, root, path[..n])
    decreases |path|
  {
    if n < |path| {
      var front := path[..|path| - 1];
      assert front[..n] == path[..n];
      ParentStops(fs, root, front, n);
    } else {
      assert path[..n] == path;
    }
  }

  // ---------------------------------------------------------------- half-way through a recursive removal

  /** `i` is a directory reached through one of these entries of `d`. */
  ghost predicate Doomed(fs: Inodes, d: Ino, gone: set<Name>, i: Ino) {
    IsDir(fs, i) && exists n :: n in gone && HasEntry(fs, d, n) && Reached(fs, At(fs, d, n), i)
  }

  /** Some entries of `d` are gone with all they led to. */
  ghost function Emptied(fs: Inodes, d: Ino, gone: set<Name>): (gs: Inodes)
    requires IsDir(fs, d)
    ensures gs.Keys == fs.Keys
  {
    map i | i in fs ::
      if i == d then Dir(fs[d].entries - gone)
      else if Doomed(fs, d, gone, i) then Dir(map[])
      else fs[i]
  }

  lemma ThroughEntry(fs: Inodes, d: Ino, n: Name, names: seq<Name>)
    requires HasEntry(fs, d, n)
    ensures Walk(fs, d, [n] + names) == Walk(fs, At(fs, d, n), names)
  {
    assert [n][..0] == [];
    WalkOn(fs, d, [n], At(fs, d, n), names);
  }

  lemma DoomedIsBelow(fs: Inodes, rank: Ino -> nat, d: Ino, gone: set<Name>, i: Ino)
    requires Sane(fs, rank) && Doomed(fs, d, gone, i)
    ensures rank(i) < rank(d)
  {
    var n :| n in gone && HasEntry(fs, d, n) && Reached(fs, At(fs, d, n), i);
    var names :| Walk(fs, At(fs, d, n), names) == Some(i);
    ThroughEntry(fs, d, n, names);
    RankFalls(fs, rank, d, [n] + names, i);
  }

  /** A directory is reached through one entry at most. */
  lemma OneEntry(fs: Inodes, rank: Ino -> nat, d: Ino, n: Name, m: Name, j: Ino)
    requires Sane(fs, rank) && IsDir(fs, j)
    requires HasEntry(fs, d, n) && Reached(fs, At(fs, d, n), j) && HasEntry(fs, d, m) && Reached(fs, At(fs, d, m), j)
    ensures n == m
  {
    var a :| Walk(fs, At(fs, d, n), a) == Some(j);
    var b :| Walk(fs, At(fs, d, m), b) == Some(j);
    ThroughEntry(fs, d, n, a);
    ThroughEntry(fs, d, m, b);
    OneWay(fs, rank, d, [n] + a, [m] + b, j);
    assert ([n] + a)[0] == n && ([m] + b)[0] == m;
  }

  /** Other entries still lead where they led, and everything below them is as it was. */
  lemma SiblingsAreApart(fs: Inodes, rank: Ino -> nat, d: Ino, gone: set<Name>, n: Name, j: Ino)
    requires Sane(fs, rank) && HasEntry(fs, d, n) && n !in gone && j in fs && Reached(fs, At(fs, d, n), j)
    ensures Emptied(fs, d, gone)[j] == fs[j]
  {
    var names :| Walk(fs, At(fs, d, n), names) == Some(j);
    ThroughEntry(fs, d, n, names);
    if IsDir(fs, j) {
      RankFalls(fs, rank, d, [n] + names, j);
      if Doomed(fs, d, gone, j) {
        var m :| m in gone && HasEntry(fs, d, m) && Reached(fs, At(fs, d, m), j);
        OneEntry(fs, rank, d, n, m, j);
      }
    }
  }

  lemma AboveIsKept(fs: Inodes, rank: Ino -> nat, d: Ino, gone: set<Name>, root: Ino, names: seq<Name>, i: Ino)
    requires Sane(fs, rank) && IsDir(fs, d) && Walk(fs, root, names) == Some(i) && IsDir(fs, i) && rank(i) >= rank(d)
    ensures Walk(Emptied(fs, d, gone), root, names) == Some(i)
  {
    var gs := Emptied(fs, d, gone);
    forall j | IsDir(fs, j) && rank(j) > rank(i) ensures gs[j] == fs[j] {
      if Doomed(fs, d, gone, j) {
        DoomedIsBelow(fs, rank, d, gone, j);
      }
    }
    WalkAbove(fs, gs, rank, root, names, i);
  }

  /** The next entry is still where it was listed. */
  lemma EntryIsKept(fs: Inodes, rank: Ino -> nat, root: Ino, path: seq<Name>, d: Ino, gone: set<Name>, n: Name)
    requires Sane(fs, rank) && Walk(fs, root, path) == Some(d) && HasEntry(fs, d, n) && n !in gone
    ensures var gs, c := Emptied(fs, d, gone), At(fs, d, n);
            && Walk(gs, root, path) == Some(d) && Walk(gs, root, path + [n]) == Some(c) && gs[c] == fs[c]
            && forall i :: Reached(gs, c, i) <==> Reached(fs, c, i)
  {
    var gs, c := Emptied(fs, d, gone), At(fs, d, n);
    AboveIsKept(fs, rank, d, gone, root, path, d);
    assert Walk(fs, c, []) == Some(c);
    SiblingsAreApart(fs, rank, d, gone, n, c);
    assert HasEntry(gs, d, n) && At(gs, d, n) == c;
    OneStepMore(gs, root, path, n);
    forall j | j in fs && Reached(fs, c, j) ensures gs[j] == fs[j] {
      SiblingsAreApart(fs, rank, d, gone, n, j);
    }
    forall i ensures Reached(gs, c, i) <==> Reached(fs, c, i) {
      SameReach(fs, gs, c, i);
    }
  }

  lemma DoomedByOneMore(fs: Inodes, d: Ino, gone: set<Name>, n: Name, i: Ino)
    requires HasEntry(fs, d, n)
    ensures Doomed(fs, d, gone + {n}, i) <==> Doomed(fs, d, gone, i) || (IsDir(fs, i) && Reached(fs, At(fs, d, n), i))
  {
    if IsDir(fs, i) && Reached(fs, At(fs, d, n), i) {
      assert n in gone + {n};
    }
  }

  lemma ReachedIsBelow(fs: Inodes, rank: Ino -> nat, d: Ino, n: Name, i: Ino)
    requires Sane(fs, rank) && HasEntry(fs, d, n) && IsDir(fs, i) && Reached(fs, At(fs, d, n), i)
    ensures rank(i) < rank(d)
  {
    assert Doomed(fs, d, {n}, i);
    DoomedIsBelow(fs, rank, d, {n}, i);
  }

  lemma OneMoreGone(fs: Inodes, rank: Ino -> nat, d: Ino, gone: set<Name>, n: Name, i: Ino)
    requires Sane(fs, rank) && HasEntry(fs, d, n) && i in fs
    ensures Emptied(fs, d, gone + {n})[i] ==
            if IsDir(fs, i) && Reached(fs, At(fs, d, n), i) then Dir(map[])
            else if i == d then Dir(Emptied(fs, d, gone)[d].entries - {n})
            else Emptied(fs, d, gone)[i]
  {
    DoomedByOneMore(fs, d, gone, n, i);
    if IsDir(fs, i) && Reached(fs, At(fs, d, n), i) {
      ReachedIsBelow(fs, rank, d, n, i);
    }
  }

  /** Taking the next entry away leaves one more entry gone. */
  lemma EntryIsDetached(fs: Inodes, rank: Ino -> nat, root: Ino, path: seq<Name>, d: Ino, gone: set<Name>, n: Name)
    requires Sane(fs, rank) && Walk(fs, root, path) == Some(d) && HasEntry(fs, d, n) && n !in gone
    ensures var gs := Emptied(fs, d, gone);
            && Walk(gs, root, path + [n]).Some? && Detached(gs, root, path + [n]) == Emptied(fs, d, gone + {n})
  {
    var gs, c, whole := Emptied(fs, d, gone), At(fs, d, n), path + [n];
    EntryIsKept(fs, rank, root, path, d, gone, n);
    assert whole[..|whole| - 1] == path;
    forall i | i in fs ensures Detached(gs, root, whole)[i] == Emptied(fs, d, gone + {n})[i] {
      DetachedAt(gs, root, whole, d, c, i);
      OneMoreGone(fs, rank, d, gone, n, i);
    }
  }

  ghost predicate OfKind(fs: Inodes, root: Ino, path: seq<Name>, kind: Kind) {
    if kind.Directory? then LeadsToDir(fs, root, path) else Removable(fs, Walk(fs, root, path), false)
  }

  /** What the next turn meets and leaves. */
  lemma EntryGoes(fs: Inodes, rank: Ino -> nat, root: Ino, path: seq<Name>, d: Ino, gone: set<Name>, entry: Listed)
    requires Sane(fs, rank) && Walk(fs, root, path) == Some(d) && HasEntry(fs, d, entry.name) && entry.name !in gone
    requires KindOf(fs[At(fs, d, entry.name)]) == entry.kind
    ensures var gs, whole := Emptied(fs, d, gone), path + [entry.name];
            && OfKind(gs, root, whole, entry.kind)
            && Walk(gs, root, whole).Some? && Detached(gs, root, whole) == Emptied(fs, d, gone + {entry.name})
  {
    EntryIsKept(fs, rank, root, path, d, gone, entry.name);
    EntryIsDetached(fs, rank, root, path, d, gone, entry.name);
  }

  /** A directory is reached from `d` exactly if it is `d` or doomed with all its entries. */
  lemma ReachedThroughEntry(fs: Inodes, rank: Ino -> nat, d: Ino, i: Ino, names: seq<Name>)
    requires Sane(fs, rank) && IsDir(fs, d) && IsDir(fs, i) && Walk(fs, d, names) == Some(i) && names != []
    ensures Doomed(fs, d, fs[d].entries.Keys, i)
  {
    WalkStarts(fs, d, names);
    ThroughEntry(fs, d, names[0], names[1..]);
    assert names == [names[0]] + names[1..];
  }

  lemma ReachedOrSelf(fs: Inodes, rank: Ino -> nat, d: Ino, i: Ino)
    requires Sane(fs, rank) && IsDir(fs, d) && IsDir(fs, i)
    ensures Reached(fs, d, i) <==> i == d || Doomed(fs, d, fs[d].entries.Keys, i)
  {
    assert Walk(fs, d, []) == Some(d);
    if Doomed(fs, d, fs[d].entries.Keys, i) {
      var n :| n in fs[d].entries.Keys && HasEntry(fs, d, n) && Reached(fs, At(fs, d, n), i);
      var names :| Walk(fs, At(fs, d, n), names) == Some(i);
      ThroughEntry(fs, d, n, names);
    }
    if names :| Walk(fs, d, names) == Some(i) && names != [] {
      ReachedThroughEntry(fs, rank, d, i, names);
    }
  }

  lemma {:induction false} WalkStarts(fs: Inodes, d: Ino, names: seq<Name>)
    requires Walk(fs, d, names).Some? && names != []
    ensures HasEntry(fs, d, names[0])
  {
    if |names| == 1 {
      assert names[..0] == [];
    } else {
      WalkStarts(fs, d, names[..|names| - 1]);
    }
  }

  /** With all its entries gone, taking the directory's own name away completes the removal. */
  lemma LastIsDetached(fs: Inodes, rank: Ino -> nat, root: Ino, path: seq<Name>, d: Ino)
    requires Sane(fs, rank) && path != [] && Walk(fs, root, path) == Some(d) && IsDir(fs, d)
    ensures var gs := Emptied(fs, d, fs[d].entries.Keys);
            && Walk(gs, root, path) == Some(d) && gs[d] == Dir(map[])
               && Detached(gs, root, path) == Detached(fs, root, path)
  {
    var gs, front := Emptied(fs, d, fs[d].entries.Keys), path[..|path| - 1];
    var p := Walk(fs, root, front).value;
    assert HasEntry(fs, p, path[|path| - 1]) && rank(p) > rank(d);
    AboveIsKept(fs, rank, d, fs[d].entries.Keys, root, path, d);
    AboveIsKept(fs, rank, d, fs[d].entries.Keys, root, front, p);
    forall i | i in fs ensures Detached(gs, root, path)[i] == Detached(fs, root, path)[i] {
      DetachedAt(gs, root, path, p, d, i);
      DetachedAt(fs, root, path, p, d, i);
      if IsDir(fs, i) {
        ReachedOrSelf(fs, rank, d, i);
        if Reached(gs, d, i) {
          OnlyItself(gs, d, i);
        }
        if Doomed(fs, d, fs[d].entries.Keys, i) {
          DoomedIsBelow(fs, rank, d, fs[d].entries.Keys, i);
        }
        assert Walk(gs, d, []) == Some(d);
      }
    }
  }

  predicate LeadsToDir(fs: Inodes, root: Ino, path: seq<Name>) {
    Walk(fs, root, path).Some? && IsDir(fs, Walk(fs, root, path).value)
  }

  /** Directories may have lost names; every other inode is as it was. */
  ghost predicate Shrunk(fs: Inodes, gs: Inodes) {
    && gs.Keys == fs.Keys
    && forall i :: i in fs ==> gs[i] == fs[i] || (fs[i].Dir? && gs[i].Dir? && Fewer(gs[i].entries, fs[i].entries))
  }

  lemma DetachedIsShrunk(fs: Inodes, root: Ino, path: seq<Name>)
    requires path != [] && Walk(fs, root, path).Some?
    ensures Shrunk(fs, Detached(fs, root, path))
  {
  }

  lemma ShrunkTwice(fs: Inodes, gs: Inodes, hs: Inodes)
    requires Shrunk(fs, gs) && Shrunk(gs, hs)
    ensures Shrunk(fs, hs)
  {
  }

  // ---------------------------------------------------------------- termination

  ghost function Highest(inos: set<Ino>, rank: Ino -> nat): (h: nat)
    ensures forall i :: i in inos ==> rank(i) <= h
  {
    if inos == {} then 0 else
    var i :| i in inos;
    var rest := Highest(inos - {i}, rank);
    if rank(i) > rest then rank(i) else rest
  }

  /** How much deeper than a path of this length any directory can be. */
  ghost function Levels(inos: set<Ino>, rank: Ino -> nat, length: nat): nat {
    if length > Highest(inos, rank) then 0 else Highest(inos, rank) - length + 1
  }

  /** Something below this path may still be a directory. */
  ghost predicate Shallow(inos: set<Ino>, rank: Ino -> nat, path: seq<Name>) {
    |path| <= Highest(inos, rank)
  }

  lemma PathIsShort(fs: Inodes, rank: Ino -> nat, root: Ino, path: seq<Name>, d: Ino)
    requires Sane(fs, rank) && IsDir(fs, root) && Walk(fs, root, path) == Some(d) && IsDir(fs, d)
    ensures Shallow(fs.Keys, rank, path)
  {
    RankFalls(fs, rank, root, path, d);
  }

  // ---------------------------------------------------------------- what has been listed

  lemma NothingGone(fs: Inodes, d: Ino)
    requires IsDir(fs, d)
    ensures Emptied(fs, d, {}) == fs
  {
    assert fs[d].entries - {} == fs[d].entries;
  }

  function NamesOf(listed: seq<Listed>): set<Name> {
    set l | l in listed :: l.name
  }

  lemma NotYetGone(listed: seq<Listed>, i: nat)
    requires i < |listed| && forall j, k :: 0 <= j < k < |listed| ==> listed[j].name != listed[k].name
    ensures listed[i].name !in NamesOf(listed[..i])
    ensures NamesOf(listed[..i + 1]) == NamesOf(listed[..i]) + {listed[i].name}
  {
    assert listed[..i + 1] == listed[..i] + [listed[i]];
  }

  lemma AllGone(fs: Inodes, d: Ino, listed: seq<Listed>)
    requires IsDir(fs, d) && ListsAll(fs, d, listed)
    requires forall n :: n in fs[d].entries ==> HasEntry(fs, d, n)
    ensures NamesOf(listed[..|listed|]) == fs[d].entries.Keys
  {
    assert listed[..|listed|] == listed;
    forall n | n in fs[d].entries ensures n in NamesOf(listed) {
      assert Listed(n, KindOf(fs[At(fs, d, n)])) in listed;
    }
  }

  function KindAt(fs: Inodes, root: Ino, path: seq<Name>): Result<Option<Kind>> {
    var parent := ParentOf(fs, root, path);
    if parent.Err? then Err
    else if parent.value.None? || !HasEntry(fs, parent.value.value, path[|path| - 1]) then Ok(None)
    else Ok(Some(KindOf(fs[At(fs, parent.value.value, path[|path| - 1])])))
  }

  predicate Removable(fs: Inodes, target: Option<Ino>, removeDir: bool) {
    && target.Some? && target.value in fs
    && if removeDir then fs[target.value].Dir? && fs[target.value].entries == map[] else !fs[target.value].Dir?
  }

  /** Each entry once, with its own kind. */
  ghost predicate ListsAll(fs: Inodes, d: Ino, listed: seq<Listed>) {
    && (forall l :: l in listed <==> HasEntry(fs, d, l.name) && KindOf(fs[At(fs, d, l.name)]) == l.kind)
    && (forall i, j :: 0 <= i < j < |listed| ==> listed[i].name != listed[j].name)
  }

  function AsNames(texts: seq<Text>): (names: seq<Name>)
    requires forall x :: x in texts ==> SLASH !in x
    ensures names == texts
  {
    if texts == [] then []
    else
      assert texts[0] in texts;
      var first: Name := texts[0];
      [first] + AsNames(texts[1..])
  }

  /** The named entries with their kinds. */
  function ListedInOrder(fs: Inodes, d: Ino, names: seq<Name>): (listed: seq<Listed>)
    requires forall n :: n in names ==> HasEntry(fs, d, n)
    ensures |listed| == |names|
    ensures forall i :: 0 <= i < |names| ==> listed[i] == Listed(names[i], KindOf(fs[At(fs, d, names[i])]))
  {
    if names == [] then []
    else
      assert names[0] in names && forall n :: n in names[1..] ==> n in names;
      [Listed(names[0], KindOf(fs[At(fs, d, names[0])]))] + ListedInOrder(fs, d, names[1..])
  }

  /** The entries of a directory by name, as `read_dir` sorts them. */
  ghost function Listing(fs: Inodes, d: Ino): (listed: seq<Listed>)
    requires IsDir(fs, d) && forall n :: n in fs[d].entries ==> HasEntry(fs, d, n)
    ensures ListsAll(fs, d, listed)
    ensures forall i, j :: 0 <= i < j < |listed| ==> Less(listed[i].name, listed[j].name)
  {
    var names := OrderOf(fs[d].entries.Keys);
    OrderedDiffer(names);
    ListedInOrder(fs, d, AsNames(names))
  }

  // ---------------------------------------------------------------- what a removal means

  /** Only the directory that held the name and the real directories reached through it lose names. Files with
      other names, the targets of links and everything outside are as they were. */
  lemma EverythingElseIsKept(fs: Inodes, root: Ino, path: seq<Name>, i: Ino)
    requires path != [] && Walk(fs, root, path).Some? && i in fs
    ensures Detached(fs, root, path)[i] == fs[i]
            || (IsDir(fs, i) && (Walk(fs, root, path[..|path| - 1]) == Some(i)
                                 || Reached(fs, Walk(fs, root, path).value, i)))
    ensures !IsDir(fs, i) ==> Detached(fs, root, path)[i] == fs[i]
    ensures IsDir(fs, i) ==>
            IsDir(Detached(fs, root, path), i) && Fewer(Detached(fs, root, path)[i].entries, fs[i].entries)
  {
    DetachedAt(fs, root, path, Walk(fs, root, path[..|path| - 1]).value, Walk(fs, root, path).value, i);
  }

  /** Directories may have lost names, and only such as a walk from here reaches. */
  ghost predicate OnlyReachedChange(fs: Inodes, gs: Inodes, top: Ino) {
    Shrunk(fs, gs) && forall i :: i in fs && gs[i] != fs[i] ==> Reached(fs, top, i)
  }

  lemma DetachedChanges(fs: Inodes, top: Ino, path: seq<Name>)
    requires path != [] && Walk(fs, top, path).Some?
    ensures OnlyReachedChange(fs, Detached(fs, top, path), top)
  {
    DetachedIsShrunk(fs, top, path);
    var gs, target := Detached(fs, top, path), Walk(fs, top, path).value;
    forall i | i in fs && gs[i] != fs[i] ensures Reached(fs, top, i) {
      EverythingElseIsKept(fs, top, path, i);
      if names :| Walk(fs, target, names) == Some(i) {
        WalkOn(fs, top, path, target, names);
      }
    }
  }

  /** Losing names opens no new way. */
  lemma {:induction false} ShrunkWalk(fs: Inodes, gs: Inodes, d: Ino, names: seq<Name>)
    requires Shrunk(fs, gs)
    ensures Walk(gs, d, names).Some? ==> Walk(gs, d, names) == Walk(fs, d, names)
  {
    if names != [] {
      ShrunkWalk(fs, gs, d, names[..|names| - 1]);
    }
  }

  lemma ChangesTwice(fs: Inodes, gs: Inodes, hs: Inodes, top: Ino)
    requires OnlyReachedChange(fs, gs, top) && OnlyReachedChange(gs, hs, top)
    ensures OnlyReachedChange(fs, hs, top)
  {
    ShrunkTwice(fs, gs, hs);
    forall i | i in fs && hs[i] != fs[i] ensures Reached(fs, top, i) {
      if names :| Walk(gs, top, names) == Some(i) {
        ShrunkWalk(fs, gs, top, names);
      }
    }
  }

  lemma ExtendsOrBeside(path: seq<Name>, names: seq<Name>)
    requires names != []
    ensures path <= names <==> path <= names[..|names| - 1] || path == names
  {
    if path <= names && path != names {
      assert names[..|path|] == names[..|names| - 1][..|path|];
    }
  }

  /** A directory on a walk that does not go through the removed name is not below it. */
  lemma BesideIsNotReached(fs: Inodes, rank: Ino -> nat, root: Ino, path: seq<Name>, target: Ino, names: seq<Name>,
                           i: Ino)
    requires Sane(fs, rank) && Walk(fs, root, path) == Some(target) && Walk(fs, root, names) == Some(i) && IsDir(fs, i)
    requires !(path <= names)
    ensures !Reached(fs, target, i)
  {
    if more :| Walk(fs, target, more) == Some(i) {
      WalkOn(fs, root, path, target, more);
      OneWay(fs, rank, root, path + more, names, i);
    }
  }

  lemma EndsWith(path: seq<Name>, front: seq<Name>, n: Name)
    requires path != []
    ensures path == front + [n] <==> path[..|path| - 1] == front && path[|path| - 1] == n
  {
  }

  /** A directory beside the removed name loses that name if it held it, and nothing else. */
  lemma EntriesBeside(fs: Inodes, rank: Ino -> nat, root: Ino, path: seq<Name>, front: seq<Name>, w: Ino)
    requires Sane(fs, rank) && path != [] && Walk(fs, root, path).Some?
    requires !(path <= front) && Walk(fs, root, front) == Some(w) && IsDir(fs, w)
    ensures Detached(fs, root, path)[w] ==
            if path[..|path| - 1] == front then Dir(fs[w].entries - {path[|path| - 1]}) else fs[w]
  {
    var parent, target := Walk(fs, root, path[..|path| - 1]).value, Walk(fs, root, path).value;
    BesideIsNotReached(fs, rank, root, path, target, front, w);
    DetachedAt(fs, root, path, parent, target, w);
    if w == parent {
      OneWay(fs, rank, root, path[..|path| - 1], front, parent);
    }
  }

  /** One step of a walk beside the removed name. */
  lemma StepBeside(fs: Inodes, rank: Ino -> nat, root: Ino, path: seq<Name>, front: seq<Name>, w: Ino, n: Name)
    requires Sane(fs, rank) && path != [] && Walk(fs, root, path).Some?
    requires !(path <= front) && Walk(fs, root, front) == Some(w)
    ensures var gs := Detached(fs, root, path);
            && (HasEntry(gs, w, n) <==> HasEntry(fs, w, n) && path != front + [n])
            && (HasEntry(gs, w, n) ==> At(gs, w, n) == At(fs, w, n))
  {
    EverythingElseIsKept(fs, root, path, w);
    if IsDir(fs, w) {
      EntriesBeside(fs, rank, root, path, front, w);
      EndsWith(path, front, n);
    }
  }

  /** The two disks agree on the step by `n` from the end of `front`, except that `path` ends in the second. */
  ghost predicate AgreeBeside(fs: Inodes, gs: Inodes, root: Ino, path: seq<Name>, front: seq<Name>, n: Name) {
    !(path <= front) && Walk(fs, root, front).Some? ==>
      var w := Walk(fs, root, front).value;
      && (HasEntry(gs, w, n) <==> HasEntry(fs, w, n) && path != front + [n])
      && (HasEntry(gs, w, n) ==> At(gs, w, n) == At(fs, w, n))
  }

  lemma WalkBeside(fs: Inodes, gs: Inodes, root: Ino, path: seq<Name>, front: seq<Name>, n: Name)
    requires Walk(gs, root, front) == if path <= front then None else Walk(fs, root, front)
    requires AgreeBeside(fs, gs, root, path, front, n)
    ensures Walk(gs, root, front + [n]) == if path <= front + [n] then None else Walk(fs, root, front + [n])
  {
    OneStepMore(fs, root, front, n);
    OneStepMore(gs, root, front, n);
    ExtendsOrBeside(path, front + [n]);
    assert (front + [n])[..|front|] == front;
  }

  lemma {:induction false} WalksBeside(fs: Inodes, gs: Inodes, root: Ino, path: seq<Name>, names: seq<Name>)
    requires gs.Keys == fs.Keys && path != [] && forall front, n :: AgreeBeside(fs, gs, root, path, front, n)
    ensures Walk(gs, root, names) == if path <= names then None else Walk(fs, root, names)
  {
    if names != [] {
      var front, last := names[..|names| - 1], names[|names| - 1];
      WalksBeside(fs, gs, root, path, front);
      assert AgreeBeside(fs, gs, root, path, front, last);
      WalkBeside(fs, gs, root, path, front, last);
      assert names == front + [last];
    }
  }

  /** Exactly the walks through the removed name end. */
  lemma RemainingWalks(fs: Inodes, rank: Ino -> nat, root: Ino, path: seq<Name>, names: seq<Name>)
    requires Sane(fs, rank) && path != [] && Walk(fs, root, path).Some?
    ensures Walk(Detached(fs, root, path), root, names) == if path <= names then None else Walk(fs, root, names)
  {
    var gs := Detached(fs, root, path);
    forall front, n ensures AgreeBeside(fs, gs, root, path, front, n) {
      if !(path <= front) && Walk(fs, root, front).Some? {
        StepBeside(fs, rank, root, path, front, Walk(fs, root, front).value, n);
      }
    }
    WalksBeside(fs, gs, root, path, names);
  }
}
