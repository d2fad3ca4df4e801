/** Applying a generated-delete plan, by `git/restore.rs`, and what is gone afterwards. */
module GeneratedApply {
  import opened Options
  import opened Lexicographic
  import opened Inodes
  import opened DiskSpec
  import opened RootedTree
  import opened GeneratedDelete

  function Minus(t: Tree, files: seq<Path>): Tree {
    map k | k in t && k !in files :: t[k]
  }

  function Outside(t: Tree, directories: seq<Path>): Tree {
    map k | k in t && !Matches(directories, k) :: t[k]
  }

  /** What an undisturbed apply leaves. */
  function Remaining(t: Tree, plan: Plan): Tree {
    Outside(Minus(t, plan.files), plan.directories)
  }

  /** Only what the plan names has gone, with what is below a directory that was matched outright, and nothing
      else has changed. */
  ghost predicate OnlyNamedGone(before: Tree, after: Tree, plan: Plan) {
    && (forall k :: k in after ==> k in before && after[k] == before[k])
    && (forall k :: k in before && k !in after ==> MayGo(plan, k))
  }

  ghost predicate BelowMatched(plan: Plan, k: Path) {
    exists m :: m in plan.directories && m in plan.matched && AtOrUnder(k, m)
  }

  /** The path may go when the plan is applied. */
  ghost predicate MayGo(plan: Plan, k: Path) {
    k in plan.files || k in plan.directories || BelowMatched(plan, k)
  }

  /** On disk, only directories reached from the root lose names, and only names that spell such a path. */
  ghost predicate OnlyNamedLost(fs: Inodes, gs: Inodes, top: Ino, plan: Plan) {
    && OnlyReachedChange(fs, gs, top)
    && forall i, n :: HasEntry(fs, i, n) && !HasEntry(gs, i, n) ==> LostFrom(fs, top, plan, i, n)
  }

  ghost predicate LostFrom(fs: Inodes, top: Ino, plan: Plan, i: Ino, n: Name) {
    exists names :: Walk(fs, top, names) == Some(i) && MayGo(plan, Spell(names + [n]))
  }

  lemma GoneIsLost(fs: Inodes, gs: Inodes, top: Ino, t: Tree, after: Tree, plan: Plan)
    requires Shows(fs, top, t) && Shows(gs, top, after) && OnlyReachedChange(fs, gs, top)
             && OnlyNamedGone(t, after, plan)
    ensures OnlyNamedLost(fs, gs, top, plan)
  {
    forall i, n | HasEntry(fs, i, n) && !HasEntry(gs, i, n) ensures LostFrom(fs, top, plan, i, n) {
      assert gs[i] != fs[i];
      var names :| Walk(fs, top, names) == Some(i);
      NameIsLost(fs, gs, top, t, after, plan, names, i, n);
    }
  }

  lemma NameIsLost(fs: Inodes, gs: Inodes, top: Ino, t: Tree, after: Tree, plan: Plan, names: seq<Name>, i: Ino,
                   n: Name)
    requires Shows(fs, top, t) && Shows(gs, top, after) && Shrunk(fs, gs) && OnlyNamedGone(t, after, plan)
    requires Walk(fs, top, names) == Some(i) && HasEntry(fs, i, n) && !HasEntry(gs, i, n)
    ensures MayGo(plan, Spell(names + [n]))
  {
    var k := Spell(names + [n]);
    SplitOfSpell(names + [n]);
    OneStepMore(fs, top, names, n);
    OneStepMore(gs, top, names, n);
    ShrunkWalk(fs, gs, top, names);
    DirectoryIs(fs, top, t, k);
    DirectoryIs(gs, top, after, k);
  }

  ghost predicate FilesReady(t: Tree, files: seq<Path>) {
    forall f :: f in files ==> f in t && t[f].File?
  }

  /** Each directory was matched outright, or everything below it is in the plan as well. */
  ghost predicate DirectoriesReady(t: Tree, plan: Plan) {
    && Ordered(plan.directories)
    && forall d :: d in plan.directories ==>
         IsDirectory(t, d) && (d in plan.matched || forall k :: k in t && Under(k, d) ==> k in plan.directories)
  }

  // ---------------------------------------------------------------- deepest first

  lemma OrderedAt(items: seq<Path>, i: nat, j: nat)
    requires Ordered(items) && i < |items| && j < |items| && Less(items[i], items[j])
    ensures i < j
  {
    if j < i {
      Asymmetric(items[i], items[j]);
    } else if i == j {
      Irreflexive(items[i]);
    }
  }

  /** No later directory is above this one, so it is still there. */
  lemma StillThere(t: Tree, plan: Plan, i: nat)
    requires DirectoriesReady(t, plan) && i < |plan.directories|
    ensures IsDirectory(Outside(t, plan.directories[i + 1..]), plan.directories[i])
  {
    var dirs, d := plan.directories, plan.directories[i];
    assert d in dirs;
    forall j | i < j < |dirs| ensures !AtOrUnder(d, dirs[j]) {
      if Under(d, dirs[j]) {
        UnderSortsAfter(d, dirs[j]);
        OrderedAt(dirs, j, i);
      }
      if d == dirs[j] {
        Irreflexive(d);
      }
    }
  }

  /** Everything below a directory that was not matched outright is already gone. */
  lemma AlreadyEmpty(t: Tree, plan: Plan, i: nat)
    requires DirectoriesReady(t, plan) && i < |plan.directories| && plan.directories[i] !in plan.matched
    ensures IsEmpty(Outside(t, plan.directories[i + 1..]), plan.directories[i])
  {
    var dirs, d := plan.directories, plan.directories[i];
    assert d in dirs;
    forall k | k in t && Under(k, d) ensures Matches(dirs[i + 1..], k) {
      var j :| 0 <= j < |dirs| && dirs[j] == k;
      UnderSortsAfter(k, d);
      OrderedAt(dirs, i, j);
      assert dirs[i + 1..][j - i - 1] == k;
    }
  }

  lemma OneMoreOutside(t: Tree, dirs: seq<Path>, i: nat)
    requires i < |dirs|
    ensures Without(Outside(t, dirs[i + 1..]), dirs[i]) == Outside(t, dirs[i..])
  {
    assert dirs[i..] == [dirs[i]] + dirs[i + 1..];
    forall k ensures Matches(dirs[i..], k) <==> AtOrUnder(k, dirs[i]) || Matches(dirs[i + 1..], k) {
      if Matches(dirs[i + 1..], k) {
        var j :| 0 <= j < |dirs[i + 1..]| && AtOrUnder(k, dirs[i + 1..][j]);
        assert dirs[i..][j + 1] == dirs[i + 1..][j];
      }
      assert dirs[i..][0] == dirs[i];
    }
  }

  lemma OnlyNamedGoneSteps(before: Tree, middle: Tree, plan: Plan, i: nat)
    requires OnlyNamedGone(before, middle, plan) && i < |plan.directories|
    requires plan.directories[i] in plan.matched || IsEmpty(middle, plan.directories[i])
    ensures OnlyNamedGone(before, Without(middle, plan.directories[i]), plan)
  {
    assert plan.directories[i] in plan.directories;
  }

  lemma RemovalChanges(fs: Inodes, gs: Inodes, hs: Inodes, top: Ino, path: Path, removed: bool)
    requires OnlyReachedChange(fs, gs, top) && (removed ==> Walk(gs, top, Split(path)).Some?)
    requires hs == if removed then Detached(gs, top, Split(path)) else gs
    ensures OnlyReachedChange(fs, hs, top)
  {
    if removed {
      DetachedChanges(gs, top, Split(path));
      ChangesTwice(fs, gs, hs, top);
    }
  }

  // ---------------------------------------------------------------- apply

  /** The next planned file is there, or is gone as the same file was before it. */
  lemma FileIsNext(t: Tree, files: seq<Path>, i: nat, current: Tree)
    requires FilesReady(t, files) && i < |files| && current == Minus(t, files[..i]) && Closed(current) && Closed(t)
    ensures Lookup(current, files[i]) == Ok(if files[i] in files[..i] then None else Some(File))
    ensures Minus(t, files[..i + 1]) == if files[i] in files[..i] then current else Without(current, files[i])
  {
    var path := files[i];
    assert path in files && files[..i + 1] == files[..i] + [path];
    assert forall k :: k in t ==> !Under(k, path);
    assert forall q :: q in t && Under(path, q) ==> t[q].Directory?;
  }

  lemma OneMoreFileGone(before: Tree, middle: Tree, plan: Plan, i: nat)
    requires OnlyNamedGone(before, middle, plan) && i < |plan.files| && Closed(middle)
    ensures plan.files[i] in middle && !middle[plan.files[i]].Directory? ==>
              OnlyNamedGone(before, Without(middle, plan.files[i]), plan)
  {
    assert plan.files[i] in plan.files;
  }

  method DeleteFiles(root: Root, plan: Plan) returns (ok: bool)
    requires root.Valid()
    modifies root, root.disk
    ensures root.Valid() && OnlyNamedGone(old(root.entries), root.entries, plan)
    ensures OnlyReachedChange(old(root.disk.inodes), root.disk.inodes, root.top)
    ensures FilesReady(old(root.entries), plan.files) ==> ok && root.entries == Minus(old(root.entries), plan.files)
    ensures ok ==> forall f :: f in plan.files ==> f !in root.entries
  {
    var files := plan.files;
    ghost var t, fs := root.entries, root.disk.inodes;
    for i := 0 to |files|
      invariant root.Valid() && OnlyNamedGone(t, root.entries, plan)
      invariant OnlyReachedChange(fs, root.disk.inodes, root.top)
      invariant FilesReady(t, files) ==> root.entries == Minus(t, files[..i])
      invariant forall f :: f in files[..i] ==> f !in root.entries
      invariant Closed(t)
    {
      var path := files[i];
      if FilesReady(t, files) {
        FileIsNext(t, files, i, root.entries);
      }
      OneMoreFileGone(t, root.entries, plan, i);
      var kind := root.EntryKind(path);
      if kind.Err? {
        return false;
      }
      if kind.value.Some? {
        ghost var disk := root.disk.inodes;
        var removed := root.RemoveFile(path);
        RemovalChanges(fs, disk, root.disk.inodes, root.top, path, removed);
        if !removed {
          return false;
        }
      }
    }
    assert files[..|files|] == files;
    return true;
  }

  method DeleteDirectories(root: Root, plan: Plan) returns (ok: bool)
    requires root.Valid()
    modifies root, root.disk
    ensures root.Valid() && OnlyNamedGone(old(root.entries), root.entries, plan)
    ensures OnlyReachedChange(old(root.disk.inodes), root.disk.inodes, root.top)
    ensures DirectoriesReady(old(root.entries), plan) ==>
            ok && root.entries == Outside(old(root.entries), plan.directories)
    ensures ok ==> forall d :: d in plan.directories && d in plan.matched ==> !IsDirectory(root.entries, d)
  {
    var dirs := plan.directories;
    ghost var t, fs := root.entries, root.disk.inodes;
    for i := |dirs| downto 0
      invariant root.Valid() && OnlyNamedGone(t, root.entries, plan)
      invariant OnlyReachedChange(fs, root.disk.inodes, root.top)
      invariant DirectoriesReady(t, plan) ==> root.entries == Outside(t, dirs[i..])
      invariant forall d :: d in dirs[i..] && d in plan.matched ==> !IsDirectory(root.entries, d)
    {
      var path := dirs[i];
      ghost var current, disk := root.entries, root.disk.inodes;
      OneMoreOutside(t, dirs, i);
      if DirectoriesReady(t, plan) {
        StillThere(t, plan, i);
        if path !in plan.matched {
          AlreadyEmpty(t, plan, i);
        }
      }
      var kind := root.EntryKind(path);
      if kind.Err? {
        return false;
      }
      if kind.value == Some(Directory) {
        var empty := root.DirectoryIsEmpty(path);
        if empty.Err? {
          return false;
        }
        if empty.value || path in plan.matched {
          OnlyNamedGoneSteps(t, current, plan, i);
        }
        if empty.value {
          var removed := root.RemoveDir(path);
          RemovalChanges(fs, disk, root.disk.inodes, root.top, path, removed);
          if !removed {
            return false;
          }
        } else if path in plan.matched {
          var removed := root.RemoveDirAll(path);
          RemovalChanges(fs, disk, root.disk.inodes, root.top, path, removed);
          if !removed {
            return false;
          }
        }
      }
    }
    assert dirs[0..] == dirs;
    return true;
  }

  /** `apply_delete_generated_prefix`. Whatever the tree is by then, only what the plan names goes; on a tree
      where the plan still holds, all of it goes. */
  method ApplyDeleteGeneratedPrefix(root: Root, plan: Plan) returns (ok: bool)
    requires root.Valid()
    modifies root, root.disk
    ensures root.Valid() && OnlyNamedGone(old(root.entries), root.entries, plan)
    ensures OnlyNamedLost(old(root.disk.inodes), root.disk.inodes, root.top, plan)
    ensures FilesReady(old(root.entries), plan.files) && DirectoriesReady(old(root.entries), plan) ==>
              ok && root.entries == Remaining(old(root.entries), plan)
    ensures ok ==> forall f :: f in plan.files ==> f !in root.entries
    ensures ok ==> forall d :: d in plan.directories && d in plan.matched ==> !IsDirectory(root.entries, d)
  {
    ghost var t, fs := root.entries, root.disk.inodes;
    ok := DeleteFiles(root, plan);
    ghost var disk := root.disk.inodes;
    if ok {
      ghost var middle := root.entries;
      assert DirectoriesReady(t, plan) && FilesReady(t, plan.files) ==> DirectoriesReady(middle, plan);
      ok := DeleteDirectories(root, plan);
      ChangesTwice(fs, disk, root.disk.inodes, root.top);
    }
    GoneIsLost(fs, root.disk.inodes, root.top, t, root.entries, plan);
  }

  // ---------------------------------------------------------------- what a plan removes

  lemma PlanIsReady(t: Tree, tracked: set<Path>, matched: seq<Path>, prefixes: seq<Path>, plan: Plan)
    requires Closed(t) && Planned(t, tracked, matched, prefixes, plan)
    ensures FilesReady(t, plan.files) && DirectoriesReady(t, plan)
  {
    forall d, k | d in plan.directories && d !in matched && k in t && Under(k, d) ensures k in plan.directories {
      HollowBelow(t, prefixes, d, k);
    }
  }

  lemma HollowBelow(t: Tree, prefixes: seq<Path>, d: Path, k: Path)
    requires Hollow(t, d) && Matches(prefixes, d) && k in t && Under(k, d)
    ensures t[k].Directory? && Hollow(t, k) && Matches(prefixes, k)
  {
    MatchesBelow(prefixes, d, k);
    forall j | j in t && Under(j, k) ensures t[j].Directory? {
      UnderTransitive(j, k, d);
    }
  }

  /** What goes with a directory of the plan. */
  lemma GoneWithDirectory(t: Tree, tracked: set<Path>, matched: seq<Path>, prefixes: seq<Path>, plan: Plan, k: Path)
    requires Closed(t) && Planned(t, tracked, matched, prefixes, plan) && k in t && Matches(plan.directories, k)
    ensures || (Deletable(t, tracked, k) && Matches(matched, k))
            || (t[k].Directory? && Hollow(t, k) && Matches(prefixes, k))
  {
    var i :| 0 <= i < |plan.directories| && AtOrUnder(k, plan.directories[i]);
    var d := plan.directories[i];
    assert d in plan.directories;
    if d in matched {
      MatchesBelow(matched, d, k);
    } else {
      MatchesBelow(prefixes, d, k);
      if k != d {
        HollowBelow(t, prefixes, d, k);
      }
    }
  }

  lemma MatchedIsUnderPrefixes(candidates: seq<Path>, prefixes: seq<Path>, k: Path)
    requires Matches(PathsUnderPrefixes(candidates, prefixes), k)
    ensures Matches(prefixes, k)
  {
    var matched := PathsUnderPrefixes(candidates, prefixes);
    var i :| 0 <= i < |matched| && AtOrUnder(k, matched[i]);
    assert matched[i] in matched;
    MatchesBelow(prefixes, matched[i], k);
  }

  lemma PlannedFileIsUntracked(t: Tree, tracked: set<Path>, matched: seq<Path>, f: Path)
    requires Closed(t) && Plannable(t, tracked, matched) && PlannedFile(t, matched, f)
    ensures f !in tracked
  {
    var i :| 0 <= i < |matched| && AtOrUnder(f, matched[i]);
    assert matched[i] in matched;
  }

  /** Exactly what an undisturbed delete removes: every planned path; of the regular files only the planned
      ones; nothing outside the prefixes; no symlink; and nothing tracked, except a tracked directory (a
      submodule) under a prefix with nothing but directories in it. */
  ghost predicate RemovesExactly(t: Tree, after: Tree, tracked: set<Path>, prefixes: seq<Path>, plan: Plan, k: Path) {
    k in t ==>
      && (k in plan.files || k in plan.directories ==> k !in after)
      && (k in after ==> after[k] == t[k])
      && (k !in after ==> Matches(prefixes, k) && (t[k].File? || t[k].Directory?))
      && (t[k].File? ==> (k !in after <==> k in plan.files))
      && (k in tracked ==> (k !in after <==> t[k].Directory? && Hollow(t, k) && Matches(prefixes, k)))
  }

  lemma DeleteRemoves(t: Tree, tracked: set<Path>, candidates: seq<Path>, prefixes: seq<Path>, plan: Plan, k: Path)
    requires Closed(t) && Planned(t, tracked, PathsUnderPrefixes(candidates, prefixes), prefixes, plan)
    ensures RemovesExactly(t, Remaining(t, plan), tracked, prefixes, plan, k)
  {
    var matched := PathsUnderPrefixes(candidates, prefixes);
    if k in t {
      if Matches(matched, k) {
        MatchedIsUnderPrefixes(candidates, prefixes, k);
      }
      if k in plan.files {
        PlannedFileIsUntracked(t, tracked, matched, k);
      } else if Matches(plan.directories, k) {
        GoneWithDirectory(t, tracked, matched, prefixes, plan, k);
      }
      if k in plan.directories {
        assert AtOrUnder(k, k) && Matches(plan.directories, k);
      }
    }
  }

  /** A generated delete from plan to disk. */
  method DeleteGeneratedPrefix(root: Root, tracked: set<Path>, candidates: seq<Path>, prefixes: seq<Path>)
    returns (r: Result<Plan>)
    requires root.Valid()
    modifies root, root.disk
    ensures root.Valid()
    ensures r.Ok? <==> Accepts(old(root.entries), tracked, PathsUnderPrefixes(candidates, prefixes), prefixes)
    ensures r.Err? ==> root.entries == old(root.entries)
    ensures r.Ok? ==> forall k :: k in root.entries ==> k in old(root.entries)
    ensures r.Ok? ==> forall k :: RemovesExactly(old(root.entries), root.entries, tracked, prefixes, r.value, k)
    ensures r.Ok? ==> OnlyNamedLost(old(root.disk.inodes), root.disk.inodes, root.top, r.value)
    ensures r.Err? ==> root.disk.inodes == old(root.disk.inodes)
  {
    ghost var t := root.entries;
    r := PlanDeleteGeneratedPrefix(root, tracked, candidates, prefixes);
    if r.Ok? {
      PlanIsReady(t, tracked, PathsUnderPrefixes(candidates, prefixes), prefixes, r.value);
      var ok := ApplyDeleteGeneratedPrefix(root, r.value);
      assert ok;
      forall k ensures RemovesExactly(t, root.entries, tracked, prefixes, r.value, k) {
        DeleteRemoves(t, tracked, candidates, prefixes, r.value, k);
      }
    }
  }

  /** A tracked directory without files, as a submodule that is not checked out, goes with its prefix. */
  lemma HollowTrackedGoes(a: int, b: int)
    requires a != SLASH && b != SLASH
    ensures var p: Path, s: Path := [a], [a, SLASH, b];
            var t: Tree, plan := map[p := Directory, s := Directory], Plan([], [p, s], []);
            Closed(t) && Planned(t, {s}, [], [p], plan) && s !in Remaining(t, plan)
  {
    var p: Path, s: Path := [a], [a, SLASH, b];
    var t: Tree := map[p := Directory, s := Directory];
    assert s[..1] == p && Under(s, p);
    UnderSortsAfter(s, p);
    assert AtOrUnder(p, [p][0]) && AtOrUnder(s, [p][0]) && AtOrUnder(s, [p, s][0]);
    assert forall k :: Under(s, k) ==> k == p;
    assert (set f | f in t && PlannedFile(t, [], f)) == {};
    assert (set d | d in t && PlannedDirectory(t, [], [p], d)) == {p, s};
  }
}
