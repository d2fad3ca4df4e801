/** Planning a delete of generated paths, by `git/restore.rs`, over the tree of `RootedTree`. */
module GeneratedDelete {
  import opened Options
  import opened Lexicographic
  import opened Inodes
  import opened RootedTree

  const MAX_GENERATED_DELETE_PATHS: nat := 5000

  datatype Plan = Plan(files: seq<Path>, directories: seq<Path>, matched: seq<Path>)

  // ---------------------------------------------------------------- what a plan names

  predicate Matches(prefixes: seq<Path>, path: Path) {
    exists i :: 0 <= i < |prefixes| && AtOrUnder(path, prefixes[i])
  }

  lemma MatchesBelow(prefixes: seq<Path>, d: Path, k: Path)
    requires Matches(prefixes, d) && AtOrUnder(k, d)
    ensures Matches(prefixes, k)
  {
    var i :| 0 <= i < |prefixes| && AtOrUnder(d, prefixes[i]);
    if Under(k, d) && Under(d, prefixes[i]) {
      UnderTransitive(k, d, prefixes[i]);
    }
  }

  /** Neither tracked nor anything a delete would not recognise. */
  predicate Deletable(t: Tree, tracked: set<Path>, k: Path)
    requires k in t
  {
    k !in tracked && (t[k].File? || t[k].Directory?)
  }

  ghost predicate Clean(t: Tree, tracked: set<Path>, path: Path) {
    forall k :: k in t && Under(k, path) ==> Deletable(t, tracked, k)
  }

  /** Directories all the way down. */
  ghost predicate Hollow(t: Tree, path: Path) {
    forall k :: k in t && Under(k, path) ==> t[k].Directory?
  }

  ghost predicate HollowAt(t: Tree, d: Path, path: Path) {
    IsDirectory(t, d) && AtOrUnder(d, path) && Hollow(t, d)
  }

  predicate FileAt(t: Tree, f: Path, path: Path) {
    f in t && t[f].File? && AtOrUnder(f, path)
  }

  // ---------------------------------------------------------------- listed children stand for the subtree

  ghost predicate Covered(listed: seq<Entry>, k: Path) {
    exists e :: e in listed && AtOrUnder(k, e.relative)
  }

  lemma CoveredGrows(listed: seq<Entry>, i: nat)
    requires i < |listed|
    ensures forall k :: Covered(listed[..i + 1], k) <==> Covered(listed[..i], k) || AtOrUnder(k, listed[i].relative)
  {
    assert listed[..i + 1] == listed[..i] + [listed[i]];
  }

  lemma CoveredAll(t: Tree, path: Path, listed: seq<Entry>)
    requires Closed(t) && Lists(t, path, listed)
    ensures forall k :: k in t ==> (Covered(listed, k) <==> Under(k, path))
  {
    forall k | k in t ensures Covered(listed, k) <==> Under(k, path) {
      if Under(k, path) {
        HangsThroughChild(t, k, path);
        var child :| child in t && IsChild(child, path) && AtOrUnder(k, child);
        assert Entry(child, t[child]) in listed;
      }
      if Covered(listed, k) {
        var e :| e in listed && AtOrUnder(k, e.relative);
        if k != e.relative {
          UnderTransitive(k, e.relative, path);
        }
      }
    }
  }

  lemma EntryIsBelow(t: Tree, path: Path, listed: seq<Entry>, i: nat)
    requires Lists(t, path, listed) && i < |listed| && path in t
    ensures var child := listed[i].relative;
            child in t && t[child] == listed[i].kind && Under(child, path) && Subtree(t, child) < Subtree(t, path)
  {
    assert listed[i] in listed;
    SubtreeShrinks(t, t, path, listed[i].relative);
  }

  lemma CleanBelow(t: Tree, tracked: set<Path>, path: Path, child: Path)
    requires Clean(t, tracked, path) && child in t && Under(child, path)
    ensures Clean(t, tracked, child) && Deletable(t, tracked, child)
  {
    forall k | k in t && Under(k, child) ensures Deletable(t, tracked, k) {
      UnderTransitive(k, child, path);
    }
  }

  /** `collect_untracked_files_in_dir`. */
  method CollectUntrackedFilesInDir(root: Root, path: Path, tracked: set<Path>, files: seq<Path>)
    returns (r: Result<seq<Path>>)
    requires root.Valid() && Ordered(files)
    ensures r.Ok? <==> IsDirectory(root.entries, path) && Clean(root.entries, tracked, path)
    ensures r.Ok? ==> Ordered(r.value)
    ensures r.Ok? ==> forall f :: f in r.value <==> f in files || (FileAt(root.entries, f, path) && f != path)
    decreases Subtree(root.entries, path)
  {
    ghost var t := root.entries;
    var children := root.ReadDir(path);
    if children.Err? {
      return Err;
    }
    var listed := children.value;
    var collected := files;
    for i := 0 to |listed|
      invariant root.entries == t && Ordered(collected)
      invariant forall k :: k in t && Covered(listed[..i], k) ==> Deletable(t, tracked, k)
      invariant forall f :: f in collected <==> f in files || (f in t && t[f].File? && Covered(listed[..i], f))
    {
      var entry := listed[i];
      EntryIsBelow(t, path, listed, i);
      CoveredGrows(listed, i);
      if entry.relative in tracked {
        return Err;
      }
      match entry.kind
      case File =>
        PutOrdered(collected, entry.relative);
        collected := Put(collected, entry.relative);
      case Directory =>
        if Clean(t, tracked, path) {
          CleanBelow(t, tracked, path, entry.relative);
        }
        var below := CollectUntrackedFilesInDir(root, entry.relative, tracked, collected);
        if below.Err? {
          return Err;
        }
        collected := below.value;
      case _ =>
        return Err;
    }
    assert listed[..|listed|] == listed;
    CoveredAll(t, path, listed);
    return Ok(collected);
  }

  /** `collect_empty_dirs`: whether the directory is hollow, and every hollow directory from it down. */
  method CollectEmptyDirs(root: Root, path: Path, dirs: seq<Path>) returns (r: Result<bool>, collected: seq<Path>)
    requires root.Valid() && Ordered(dirs)
    ensures Ordered(collected)
    ensures r.Ok? <==> IsDirectory(root.entries, path)
    ensures r.Ok? ==> (r.value <==> Hollow(root.entries, path))
    ensures r.Ok? ==> forall d :: d in collected <==> d in dirs || HollowAt(root.entries, d, path)
    decreases Subtree(root.entries, path)
  {
    ghost var t := root.entries;
    collected := dirs;
    var children := root.ReadDir(path);
    if children.Err? {
      return Err, collected;
    }
    var listed := children.value;
    var empty := true;
    for i := 0 to |listed|
      invariant root.entries == t && Ordered(collected)
      invariant empty <==> forall k :: k in t && Covered(listed[..i], k) ==> t[k].Directory?
      invariant forall d :: d in collected <==>
                d in dirs || (IsDirectory(t, d) && Hollow(t, d) && Covered(listed[..i], d))
    {
      var entry := listed[i];
      EntryIsBelow(t, path, listed, i);
      CoveredGrows(listed, i);
      if entry.kind.Directory? {
        var below;
        below, collected := CollectEmptyDirs(root, entry.relative, collected);
        if below.Err? {
          return Err, collected;
        }
        if !below.value {
          empty := false;
        }
      } else {
        empty := false;
      }
    }
    assert listed[..|listed|] == listed;
    CoveredAll(t, path, listed);
    if empty {
      PutOrdered(collected, path);
      collected := Put(collected, path);
    }
    r := Ok(empty);
  }

  // ---------------------------------------------------------------- planning

  /** `paths_under_prefixes`: equality or a separator boundary. */
  function PathsUnderPrefixes(paths: seq<Path>, prefixes: seq<Path>): (matched: seq<Path>)
    ensures forall m :: m in matched <==> m in paths && Matches(prefixes, m)
  {
    if paths == [] then []
    else if Matches(prefixes, paths[0]) then [paths[0]] + PathsUnderPrefixes(paths[1..], prefixes)
    else PathsUnderPrefixes(paths[1..], prefixes)
  }

  predicate NoDuplicates(paths: seq<Path>) {
    forall i, j :: 0 <= i < j < |paths| ==> paths[i] != paths[j]
  }

  predicate PlannedFile(t: Tree, matched: seq<Path>, f: Path) {
    f in t && t[f].File? && Matches(matched, f)
  }

  ghost predicate PlannedDirectory(t: Tree, matched: seq<Path>, prefixes: seq<Path>, d: Path) {
    IsDirectory(t, d) && (d in matched || (Hollow(t, d) && Matches(prefixes, d)))
  }

  ghost function PlannedCount(t: Tree, matched: seq<Path>, prefixes: seq<Path>): nat {
    |set f | f in t && PlannedFile(t, matched, f)| + |set d | d in t && PlannedDirectory(t, matched, prefixes, d)|
  }

  /** Every matched path can be planned. */
  ghost predicate Plannable(t: Tree, tracked: set<Path>, matched: seq<Path>) {
    forall m :: m in matched ==> m !in tracked && !Blocked(t, m) && (IsDirectory(t, m) ==> Clean(t, tracked, m))
  }

  ghost predicate Accepts(t: Tree, tracked: set<Path>, matched: seq<Path>, prefixes: seq<Path>) {
    && NoDuplicates(prefixes)
    && Plannable(t, tracked, matched)
    && (forall p :: p in prefixes ==> !Blocked(t, p))
    && 0 < PlannedCount(t, matched, prefixes) <= 5000
  }

  ghost predicate Planned(t: Tree, tracked: set<Path>, matched: seq<Path>, prefixes: seq<Path>, plan: Plan) {
    && Accepts(t, tracked, matched, prefixes)
    && Ordered(plan.files) && Ordered(plan.directories) && plan.matched == matched
    && (forall f :: f in plan.files <==> PlannedFile(t, matched, f))
    && (forall d :: d in plan.directories <==> PlannedDirectory(t, matched, prefixes, d))
  }

  lemma MatchesGrows(paths: seq<Path>, i: nat)
    requires i < |paths|
    ensures forall k :: Matches(paths[..i + 1], k) <==> Matches(paths[..i], k) || AtOrUnder(k, paths[i])
  {
    assert forall j :: 0 <= j < i ==> paths[..i + 1][j] == paths[..i][j];
    assert paths[..i + 1][i] == paths[i];
  }

  /** The first loop of the plan: every matched file, and every matched directory with the files below it. */
  method CollectMatched(root: Root, tracked: set<Path>, matched: seq<Path>)
    returns (r: Result<seq<Path>>, directories: seq<Path>)
    requires root.Valid()
    ensures r.Ok? <==> Plannable(root.entries, tracked, matched)
    ensures Ordered(directories)
    ensures r.Ok? ==> Ordered(r.value) && forall f :: f in r.value <==> PlannedFile(root.entries, matched, f)
    ensures r.Ok? ==> forall d :: d in directories <==> IsDirectory(root.entries, d) && d in matched
  {
    var files: seq<Path> := [];
    ghost var t := root.entries;
    directories := [];
    for i := 0 to |matched|
      invariant root.entries == t && Ordered(files) && Ordered(directories)
      invariant Plannable(t, tracked, matched[..i])
      invariant forall f :: f in files <==> PlannedFile(t, matched[..i], f)
      invariant forall d :: d in directories <==> IsDirectory(t, d) && d in matched[..i]
    {
      var path := matched[i];
      MatchesGrows(matched, i);
      assert matched[..i + 1] == matched[..i] + [path];
      if path in tracked {
        return Err, directories;
      }
      var kind := root.EntryKind(path);
      if kind.Err? {
        return Err, directories;
      }
      if kind.value == Some(File) {
        PutOrdered(files, path);
        files := Put(files, path);
      } else if kind.value == Some(Directory) {
        PutOrdered(directories, path);
        directories := Put(directories, path);
        var below := CollectUntrackedFilesInDir(root, path, tracked, files);
        if below.Err? {
          return Err, directories;
        }
        files := below.value;
      }
    }
    assert matched[..|matched|] == matched;
    r := Ok(files);
  }

  /** `collect_empty_dirs_under_prefixes`. */
  method CollectEmptyDirsUnderPrefixes(root: Root, prefixes: seq<Path>, dirs: seq<Path>) returns (r: Result<seq<Path>>)
    requires root.Valid() && Ordered(dirs)
    ensures r.Ok? <==> forall p :: p in prefixes ==> !Blocked(root.entries, p)
    ensures r.Ok? ==> Ordered(r.value)
    ensures r.Ok? ==> forall d :: d in r.value <==>
              d in dirs || (IsDirectory(root.entries, d) && Hollow(root.entries, d) && Matches(prefixes, d))
  {
    var collected := dirs;
    ghost var t := root.entries;
    for i := 0 to |prefixes|
      invariant root.entries == t && Ordered(collected)
      invariant forall p :: p in prefixes[..i] ==> !Blocked(t, p)
      invariant forall d :: d in collected <==>
                d in dirs || (IsDirectory(t, d) && Hollow(t, d) && Matches(prefixes[..i], d))
    {
      MatchesGrows(prefixes, i);
      var kind := root.EntryKind(prefixes[i]);
      if kind.Err? {
        return Err;
      }
      if kind.value == Some(Directory) {
        var below;
        below, collected := CollectEmptyDirs(root, prefixes[i], collected);
        if below.Err? {
          return Err;
        }
      }
    }
    assert prefixes[..|prefixes|] == prefixes;
    return Ok(collected);
  }

  /** On disk: planned files are regular files, planned directories directories, and nothing tracked, linked or
      special is below a directory that goes as a whole. */
  ghost predicate PlansOnlyOwn(fs: Inodes, top: Ino, tracked: set<Path>, plan: Plan) {
    && (forall f :: f in plan.files ==> Finds(fs, top, f, File))
    && (forall d :: d in plan.directories ==> Finds(fs, top, d, Directory))
    && (forall m, k :: m in plan.matched && Under(k, m) && Walk(fs, top, Split(k)).Some? ==>
          k !in tracked && (Finds(fs, top, k, File) || Finds(fs, top, k, Directory)))
  }

  lemma PlanIsOwn(fs: Inodes, top: Ino, t: Tree, tracked: set<Path>, prefixes: seq<Path>, plan: Plan)
    requires Shows(fs, top, t) && Closed(t) && Planned(t, tracked, plan.matched, prefixes, plan)
    ensures PlansOnlyOwn(fs, top, tracked, plan)
  {
    forall k | k in t ensures Finds(fs, top, k, t[k]) {
      assert Walk(fs, top, Split(k)).Some? || !Walk(fs, top, Split(k)).Some?;
    }
    forall m, k | m in plan.matched && Under(k, m) && Walk(fs, top, Split(k)).Some?
      ensures k !in tracked && (Finds(fs, top, k, File) || Finds(fs, top, k, Directory))
    {
      assert k in t && m in t && t[m].Directory?;
      assert Deletable(t, tracked, k);
    }
  }

  /** `plan_delete_generated_prefix`, given what Git reports as tracked and as untracked or ignored. */
  method PlanDeleteGeneratedPrefix(root: Root, tracked: set<Path>, candidates: seq<Path>, prefixes: seq<Path>)
    returns (r: Result<Plan>)
    requires root.Valid()
    ensures r.Ok? <==> Accepts(root.entries, tracked, PathsUnderPrefixes(candidates, prefixes), prefixes)
    ensures r.Ok? ==> Planned(root.entries, tracked, PathsUnderPrefixes(candidates, prefixes), prefixes, r.value)
    ensures r.Ok? ==> 0 < |r.value.files| + |r.value.directories| <= 5000
    ensures r.Ok? ==> PlansOnlyOwn(root.disk.inodes, root.top, tracked, r.value)
  {
    if !NoDuplicates(prefixes) {
      return Err;
    }
    var matched := PathsUnderPrefixes(candidates, prefixes);
    var files, named := CollectMatched(root, tracked, matched);
    if files.Err? {
      return Err;
    }
    var directories := CollectEmptyDirsUnderPrefixes(root, prefixes, named);
    if directories.Err? {
      return Err;
    }
    ghost var t := root.entries;
    OrderedCount(files.value, set f | f in t && PlannedFile(t, matched, f));
    OrderedCount(directories.value, set d | d in t && PlannedDirectory(t, matched, prefixes, d));
    var count := |files.value| + |directories.value|;
    if count > MAX_GENERATED_DELETE_PATHS || count == 0 {
      return Err;
    }
    PlanIsOwn(root.disk.inodes, root.top, t, tracked, prefixes, Plan(files.value, directories.value, matched));
    return Ok(Plan(files.value, directories.value, matched));
  }
}
