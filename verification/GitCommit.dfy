/** The commit workflow of `git/commit.rs` over a model of HEAD, index and worktree. */
module GitCommit {
  import opened Options
  import opened RootedTree
  import opened GeneratedDelete

  const MAX_EXPANDED_COMMIT_PATHS: nat := 5000

  datatype Blob = Blob(bytes: seq<int>, executable: bool)

  /** Files by path. The worktree leaves out ignored files Git does not track. */
  type Files = map<Path, Blob>

  datatype State = State(head: Files, index: Files, work: Files)

  /** No path is both a file and a directory. */
  ghost predicate Consistent(files: Files) {
    forall p, q :: p in files && q in files ==> !Under(p, q)
  }

  ghost predicate Sane(s: State) {
    Consistent(s.head) && Consistent(s.index) && Consistent(s.work)
  }

  function Get(files: Files, p: Path): Option<Blob> {
    if p in files then Some(files[p]) else None
  }

  /** Where two trees differ. */
  function Differing(a: Files, b: Files): (paths: set<Path>)
    ensures forall p :: p in paths <==> Get(a, p) != Get(b, p)
  {
    set p | p in a.Keys + b.Keys && Get(a, p) != Get(b, p)
  }

  /** `cached_paths`: both sides of every staged change. */
  function Staged(s: State): set<Path> {
    Differing(s.head, s.index)
  }

  /** `status_paths`. */
  function Dirty(s: State): set<Path> {
    Staged(s) + Differing(s.index, s.work)
  }

  /** What Git may report as the source of a staged rename. */
  function StagedDeletions(s: State): set<Path> {
    s.head.Keys - s.index.Keys
  }

  // ---------------------------------------------------------------- git add

  predicate Covers(specs: set<Path>, p: Path) {
    exists spec :: spec in specs && AtOrUnder(p, spec)
  }

  /** Something about to be added lies below `p`, so `p` cannot stay a file in the index. */
  predicate Displaced(s: State, specs: set<Path>, p: Path) {
    exists q :: q in s.work && Covers(specs, q) && Under(q, p)
  }

  predicate AddKeeps(s: State, specs: set<Path>, p: Path) {
    if Covers(specs, p) then p in s.work else p in s.index && !Displaced(s, specs, p)
  }

  /** The index after `git add -- specs`: covered paths as the worktree has them, deletions included. */
  function AddedIndex(s: State, specs: set<Path>): (index: Files)
    ensures forall p :: Get(index, p) ==
              if Covers(specs, p) then Get(s.work, p) else if Displaced(s, specs, p) then None else Get(s.index, p)
  {
    map p | p in s.index.Keys + s.work.Keys && AddKeeps(s, specs, p) :: if Covers(specs, p) then s.work[p]
      else s.index[p]
  }

  /** `git add` refuses the whole call when a pathspec matches nothing. */
  predicate SpecsMatch(s: State, specs: set<Path>) {
    forall spec :: spec in specs ==> exists p :: p in s.index.Keys + s.work.Keys && AtOrUnder(p, spec)
  }

  lemma CoversBelow(specs: set<Path>, p: Path, q: Path)
    requires Covers(specs, q) && AtOrUnder(p, q)
    ensures Covers(specs, p)
  {
    var spec :| spec in specs && AtOrUnder(q, spec);
    if Under(p, q) && Under(q, spec) {
      UnderTransitive(p, q, spec);
    }
  }

  lemma AddedIsConsistent(s: State, specs: set<Path>)
    requires Sane(s)
    ensures Consistent(AddedIndex(s, specs))
  {
    var index := AddedIndex(s, specs);
    forall p, q | p in index && q in index && Under(p, q) ensures false {
      assert Get(index, p).Some? && Get(index, q).Some?;
      if Covers(specs, q) {
        CoversBelow(specs, p, q);
      }
    }
  }

  // ---------------------------------------------------------------- the repository

  /** A change another process makes to index and worktree. */
  datatype Outside = Quiet | Moved(index: Files, work: Files)

  class Repository {
    var head: Files
    var index: Files
    var work: Files

    constructor (head: Files, index: Files, work: Files)
      requires Sane(State(head, index, work))
      ensures Valid() && Now() == State(head, index, work)
    {
      this.head, this.index, this.work := head, index, work;
    }

    function Now(): State
      reads this
    {
      State(head, index, work)
    }

    ghost predicate Valid()
      reads this
    {
      Sane(Now())
    }

    method Suffer(outside: Outside)
      requires Valid() && (outside.Moved? ==> Consistent(outside.index) && Consistent(outside.work))
      modifies this
      ensures Valid() && Now() == After(old(Now()), outside)
    {
      if outside.Moved? {
        index, work := outside.index, outside.work;
      }
    }

    method GitAdd(specs: set<Path>) returns (ok: bool)
      requires Valid()
      modifies this
      ensures Valid()
      ensures ok <==> SpecsMatch(old(Now()), specs)
      ensures Now() == if ok then old(Now()).(index := AddedIndex(old(Now()), specs)) else old(Now())
    {
      ok := SpecsMatch(Now(), specs);
      if ok {
        AddedIsConsistent(Now(), specs);
        index := AddedIndex(Now(), specs);
      }
    }

    /** `stage_paths`: rename sources cannot be named to `git add`. */
    method StagePaths(paths: set<Path>, detected: set<Path>) returns (ok: bool)
      requires Valid()
      modifies this
      ensures Valid()
      ensures var stageable := Stageable(old(Now()), paths, detected);
              && (ok <==> SpecsMatch(old(Now()), stageable))
              && Now() == if ok then AfterStage(old(Now()), stageable) else old(Now())
    {
      var sources := detected * StagedDeletions(Now());
      var stageable := paths - sources;
      if stageable == {} {
        NothingAdded(Now());
        return true;
      }
      ok := GitAdd(stageable);
    }

    /** `commit_staged`: refused when nothing is staged. */
    method CommitStaged() returns (ok: bool)
      requires Valid()
      modifies this
      ensures Valid()
      ensures ok <==> Staged(old(Now())) != {}
      ensures Now() == if ok then AfterCommit(old(Now())) else old(Now())
    {
      ok := Staged(Now()) != {};
      if ok {
        head := index;
      }
    }

    /** `plan_commit_exact`. */
    method PlanCommitExact(paths: seq<Path>) returns (r: Option<set<Path>>)
      requires Valid()
      ensures r == if ExactPlan(Now(), paths) then Some(Set(paths)) else None
      ensures r.Some? <==> paths != [] && Distinct(paths) && forall p :: p in paths <==> Changed(Now(), p)
    {
      var expected := Set(paths);
      ChangedIsDirty(Now());
      if |expected| != |paths| {
        NotDistinct(paths);
        return None;
      }
      AreDistinct(paths);
      var dirty := Dirty(Now());
      if dirty == {} || dirty != expected {
        return None;
      }
      return Some(expected);
    }

    /** `plan_commit_scoped`, and `plan_stage_exact`. */
    method PlanCommitScoped(paths: seq<Path>) returns (r: Option<PartialPlan>)
      requires Valid()
      ensures r == if ScopedPlan(Now(), paths) then Some(PartialPlan(Set(paths), Dirty(Now()) - Set(paths))) else None
      ensures r.Some? <==> && Distinct(paths) && (forall p :: p in paths ==> Changed(Now(), p))
                           && (exists p :: Changed(Now(), p)) && (forall p :: Get(head, p) == Get(index, p))
      ensures r.Some? ==> forall p :: (p in r.value.requested <==> p in paths)
                                      && (p in r.value.remainingDirtyAfter <==> Changed(Now(), p) && p !in paths)
    {
      var requested := Set(paths);
      ChangedIsDirty(Now());
      if |requested| != |paths| {
        NotDistinct(paths);
        return None;
      }
      AreDistinct(paths);
      var dirty := Dirty(Now());
      if dirty == {} || requested - dirty != {} || Staged(Now()) != {} {
        return None;
      }
      return Some(PartialPlan(requested, dirty - requested));
    }

    /** `plan_commit_prefix`. */
    method PlanCommitPrefix(prefixes: seq<Path>) returns (r: Option<PartialPlan>)
      requires Valid()
      ensures r == if PrefixPlan(Now(), prefixes)
                   then Some(PartialPlan(Selected(Now(), prefixes), Dirty(Now()) - Selected(Now(), prefixes))) else None
      ensures r.Some? <==> && Distinct(prefixes) && 0 < |Selected(Now(), prefixes)| <= 5000
                           && (forall p :: Get(head, p) == Get(index, p))
      ensures r.Some? ==> forall p ::
                && (p in r.value.requested <==> Changed(Now(), p) && exists q :: q in prefixes && AtOrUnder(p, q))
                && (p in r.value.remainingDirtyAfter <==> Changed(Now(), p) && p !in r.value.requested)
    {
      ChangedIsDirty(Now());
      if !NoDuplicates(prefixes) || Dirty(Now()) == {} {
        return None;
      }
      var requested := Selected(Now(), prefixes);
      if requested == {} || |requested| > MAX_EXPANDED_COMMIT_PATHS || Staged(Now()) != {} {
        return None;
      }
      return Some(PartialPlan(requested, Dirty(Now()) - requested));
    }

    /** A planned partial commit: stage, verify, commit, with anything happening before and after staging. */
    method CommitPartial(plan: PartialPlan, detected: set<Path>, before: Outside, after: Outside) returns (ok: bool)
      requires Valid() && OutsideIsSane(before) && OutsideIsSane(after)
      modifies this
      ensures Valid()
      ensures ok ==> Differing(old(head), head) == plan.requested
      ensures !ok ==> head == old(head)
      ensures before == Quiet && after == Quiet && Staged(old(Now())) == {} && plan.requested <= Dirty(old(Now())) ==>
                (ok <==> plan.requested != {} && Alone(old(Now()), plan.requested))
      ensures before == Quiet && after == Quiet && Staged(old(Now())) == {} && plan.requested <= Dirty(old(Now()))
              && ok ==>
                Dirty(Now()) == Dirty(old(Now())) - plan.requested
      ensures ok ==> (SameAt(old(work), head, plan.requested) <==>
                      ContentKept(old(Now()), plan.requested, detected, before, after))
    {
      ghost var start := Now();
      if Staged(start) == {} && plan.requested <= Dirty(start) {
        NoSources(start, plan.requested, detected);
        StagingVerifies(start, plan.requested);
      }
      Suffer(before);
      ok := StagePaths(plan.requested, detected);
      if ok {
        Suffer(after);
        ok := Staged(Now()) == plan.requested;
        if ok {
          StagedContent(start, plan.requested, detected, before, after);
          ok := CommitStaged();
        }
      }
    }

    /** A scoped commit from plan to HEAD. */
    method CommitScopedPaths(paths: seq<Path>, detected: set<Path>, before: Outside, after: Outside) returns (ok: bool)
      requires Valid() && OutsideIsSane(before) && OutsideIsSane(after)
      modifies this
      ensures Valid()
      ensures ok ==> ScopedPlan(old(Now()), paths) && Differing(old(head), head) == Set(paths)
      ensures !ok ==> head == old(head)
      ensures before == Quiet && after == Quiet ==>
                (ok <==> ScopedPlan(old(Now()), paths) && paths != [] && Alone(old(Now()), Set(paths)))
      ensures before == Quiet && after == Quiet && ok ==> Dirty(Now()) == Dirty(old(Now())) - Set(paths)
    {
      var plan := PlanCommitScoped(paths);
      if plan.None? {
        return false;
      }
      assert paths != [] ==> paths[0] in Set(paths);
      ok := CommitPartial(plan.value, detected, before, after);
    }

    /** A prefix commit from plan to HEAD. */
    method CommitPrefixes(prefixes: seq<Path>, detected: set<Path>, before: Outside, after: Outside) returns (ok: bool)
      requires Valid() && OutsideIsSane(before) && OutsideIsSane(after)
      modifies this
      ensures Valid()
      ensures ok ==> PrefixPlan(old(Now()), prefixes) && Differing(old(head), head) == Selected(old(Now()), prefixes)
      ensures !ok ==> head == old(head)
      ensures before == Quiet && after == Quiet ==>
                (ok <==> PrefixPlan(old(Now()), prefixes) && WholeReplacements(old(Now()), prefixes))
      ensures before == Quiet && after == Quiet && ok ==>
                Dirty(Now()) == Dirty(old(Now())) - Selected(old(Now()), prefixes)
    {
      PrefixesStandAlone(Now(), prefixes);
      var plan := PlanCommitPrefix(prefixes);
      if plan.None? {
        return false;
      }
      ok := CommitPartial(plan.value, detected, before, after);
    }

    /** A planned exact commit. */
    method CommitExact(expected: set<Path>, detected: set<Path>, before: Outside, after: Outside) returns (ok: bool)
      requires Valid() && OutsideIsSane(before) && OutsideIsSane(after)
      modifies this
      ensures Valid()
      ensures ok ==> Differing(old(head), head) == expected
      ensures ok ==> forall p :: Changed(Now(), p) ==> p in expected
      ensures !ok ==> head == old(head)
      ensures before == Quiet && after == Quiet && expected != {} && expected == Dirty(old(Now())) ==>
                (ok <==> ExactStages(old(Now()), Stageable(old(Now()), expected, detected)))
      ensures before == Quiet && after == Quiet && expected != {} && expected == Dirty(old(Now())) && ok ==>
                Dirty(Now()) == LeftBehind(old(Now()), Stageable(old(Now()), expected, detected))
      ensures ok ==> (SameAt(old(work), head, expected) <==> ContentKept(old(Now()), expected, detected, before, after))
    {
      ghost var start := Now();
      if expected == Dirty(start) {
        ExactVerifies(start, detected);
      }
      Suffer(before);
      ok := StagePaths(expected, detected);
      if ok {
        Suffer(after);
        ok := Staged(Now()) == expected && Dirty(Now()) == expected;
        if ok {
          StagedContent(start, expected, detected, before, after);
          ok := CommitStaged();
        }
      }
    }
  }

  ghost predicate OutsideIsSane(outside: Outside) {
    outside.Moved? ==> Consistent(outside.index) && Consistent(outside.work)
  }

  function After(s: State, outside: Outside): State {
    match outside case Quiet => s case Moved(index, work) => State(s.head, index, work)
  }

  function Stageable(s: State, paths: set<Path>, detected: set<Path>): set<Path> {
    paths - detected * StagedDeletions(s)
  }

  function AfterStage(s: State, stageable: set<Path>): State {
    s.(index := AddedIndex(s, stageable))
  }

  function AfterCommit(s: State): State {
    s.(head := s.index)
  }

  // ---------------------------------------------------------------- plans

  /** The path is not the same in HEAD, index and worktree. */
  ghost predicate Changed(s: State, p: Path) {
    Get(s.head, p) != Get(s.index, p) || Get(s.index, p) != Get(s.work, p)
  }

  lemma ChangedIsDirty(s: State)
    ensures forall p :: Changed(s, p) <==> p in Dirty(s)
    ensures (forall p :: Get(s.head, p) == Get(s.index, p)) <==> Staged(s) == {}
  {
  }

  ghost predicate Distinct(paths: seq<Path>) {
    forall i, j :: 0 <= i < j < |paths| ==> paths[i] != paths[j]
  }

  datatype PartialPlan = PartialPlan(requested: set<Path>, remainingDirtyAfter: set<Path>)

  function Set(paths: seq<Path>): set<Path> {
    set p | p in paths
  }

  predicate ExactPlan(s: State, paths: seq<Path>) {
    NoDuplicates(paths) && Dirty(s) != {} && Dirty(s) == Set(paths)
  }

  predicate ScopedPlan(s: State, paths: seq<Path>) {
    NoDuplicates(paths) && Dirty(s) != {} && Set(paths) <= Dirty(s) && Staged(s) == {}
  }

  function Selected(s: State, prefixes: seq<Path>): set<Path> {
    set p | p in Dirty(s) && Matches(prefixes, p)
  }

  predicate PrefixPlan(s: State, prefixes: seq<Path>) {
    NoDuplicates(prefixes) && 0 < |Selected(s, prefixes)| <= MAX_EXPANDED_COMMIT_PATHS && Staged(s) == {}
  }

  lemma {:induction false} SetAtMost(paths: seq<Path>)
    ensures |Set(paths)| <= |paths|
    ensures NoDuplicates(paths) <==> |Set(paths)| == |paths|
  {
    if paths != [] {
      var front, last := paths[..|paths| - 1], paths[|paths| - 1];
      SetAtMost(front);
      assert Set(paths) == Set(front) + {last};
      assert forall i :: 0 <= i < |front| ==> front[i] == paths[i];
      assert last in front <==> last in Set(front);
    }
  }

  lemma NotDistinct(paths: seq<Path>)
    requires |Set(paths)| != |paths|
    ensures !NoDuplicates(paths)
  {
    SetAtMost(paths);
  }

  lemma AreDistinct(paths: seq<Path>)
    requires |Set(paths)| == |paths|
    ensures NoDuplicates(paths)
  {
    SetAtMost(paths);
  }

  // ---------------------------------------------------------------- what staging does

  /** Adding the requested paths takes this one along: it lies below one of them, or it is a tracked file whose
      place one of them takes. */
  predicate Swept(s: State, requested: set<Path>, p: Path) {
    Covers(requested, p) || (p in s.index && Displaced(s, requested, p))
  }

  /** The requested paths can be staged without any other dirty path. */
  predicate Alone(s: State, requested: set<Path>) {
    forall d :: d in Dirty(s) && d !in requested ==> !Swept(s, requested, d)
  }

  lemma NoSources(s: State, paths: set<Path>, detected: set<Path>)
    requires Staged(s) == {}
    ensures Stageable(s, paths, detected) == paths
  {
    forall p ensures p !in StagedDeletions(s) {
      assert Get(s.head, p) == Get(s.index, p);
    }
  }

  /** A path with nothing to commit is the same everywhere, and adding leaves it so. */
  lemma CleanStays(s: State, specs: set<Path>, p: Path)
    requires Sane(s) && p !in Dirty(s)
    ensures Get(s.head, p) == Get(s.index, p) == Get(s.work, p) == Get(AddedIndex(s, specs), p)
  {
  }

  lemma StagedAfterAdd(s: State, specs: set<Path>, p: Path)
    requires Sane(s) && Staged(s) == {}
    ensures p in Staged(s.(index := AddedIndex(s, specs))) <==>
            p in Dirty(s) && Swept(s, specs, p)
  {
    assert Get(s.head, p) == Get(s.index, p);
    if p !in Dirty(s) {
      CleanStays(s, specs, p);
    }
  }

  lemma NothingAdded(s: State)
    ensures AddedIndex(s, {}) == s.index
  {
    forall p ensures Get(AddedIndex(s, {}), p) == Get(s.index, p) {
      assert !Covers({}, p) && !Displaced(s, {}, p);
    }
    SameFiles(AddedIndex(s, {}), s.index);
  }

  lemma SameFiles(a: Files, b: Files)
    requires forall p :: Get(a, p) == Get(b, p)
    ensures a == b
  {
    assert forall p :: p in a <==> Get(a, p).Some?;
    assert forall p :: p in b <==> Get(b, p).Some?;
  }

  lemma RestStaysDirty(s: State, requested: set<Path>, p: Path)
    requires Sane(s) && Staged(s) == {} && Alone(s, requested) && requested <= Dirty(s)
    ensures p in Dirty(AfterCommit(AfterStage(s, requested))) <==> p in Dirty(s) - requested
  {
    assert Get(s.head, p) == Get(s.index, p);
    if p !in Dirty(s) {
      CleanStays(s, requested, p);
    } else if p in requested {
      assert AtOrUnder(p, p) && Covers(requested, p);
    }
  }

  lemma RequestedMatch(s: State, requested: set<Path>)
    requires Staged(s) == {} && requested <= Dirty(s)
    ensures SpecsMatch(s, requested)
  {
    forall spec | spec in requested ensures spec in s.index.Keys + s.work.Keys && AtOrUnder(spec, spec) {
      assert Get(s.head, spec) == Get(s.index, spec);
    }
  }

  /** From a clean index, staging requested dirty paths never fails, and the index then holds exactly them
      precisely when they stand alone; the commit then leaves the other dirty paths dirty, and no more. */
  lemma StagingVerifies(s: State, requested: set<Path>)
    requires Sane(s) && Staged(s) == {} && requested <= Dirty(s)
    ensures SpecsMatch(s, requested)
    ensures Staged(AfterStage(s, requested)) == requested <==> Alone(s, requested)
    ensures Alone(s, requested) ==> Dirty(AfterCommit(AfterStage(s, requested))) == Dirty(s) - requested
  {
    RequestedMatch(s, requested);
    StagedAreAlone(s, requested, Dirty(s));
    if Alone(s, requested) {
      RestIsDirty(s, requested);
    }
  }

  lemma StagedAreAlone(s: State, requested: set<Path>, dirty: set<Path>)
    requires Sane(s) && Staged(s) == {} && dirty == Dirty(s) && requested <= dirty
    ensures Staged(AfterStage(s, requested)) == requested <==> Alone(s, requested)
  {
    forall p ensures p in Staged(AfterStage(s, requested)) <==> p in dirty && Swept(s, requested, p) {
      StagedAfterAdd(s, requested, p);
    }
    assert forall p :: p in requested ==> AtOrUnder(p, p) && Swept(s, requested, p);
  }

  lemma RestIsDirty(s: State, requested: set<Path>)
    requires Sane(s) && Staged(s) == {} && requested <= Dirty(s) && Alone(s, requested)
    ensures Dirty(AfterCommit(AfterStage(s, requested))) == Dirty(s) - requested
  {
    forall p ensures p in Dirty(AfterCommit(AfterStage(s, requested))) <==> p in Dirty(s) - requested {
      RestStaysDirty(s, requested, p);
    }
  }

  /** No tracked file has given way to a directory of which the prefixes select only a part. */
  predicate WholeReplacements(s: State, prefixes: seq<Path>) {
    forall d :: d in Dirty(s) && d in s.index && Displaced(s, Selected(s, prefixes), d) ==> Matches(prefixes, d)
  }

  /** That is the only thing that keeps a selection by prefix from standing alone. */
  lemma PrefixesStandAlone(s: State, prefixes: seq<Path>)
    ensures Alone(s, Selected(s, prefixes)) <==> WholeReplacements(s, prefixes)
  {
    var requested := Selected(s, prefixes);
    forall d | d in Dirty(s) - requested ensures !Covers(requested, d) {
      if Covers(requested, d) {
        var spec :| spec in requested && AtOrUnder(d, spec);
        MatchesBelow(prefixes, spec, d);
      }
    }
  }

  /** A scoped commit of a file that gave way to a directory is refused though nothing interferes: naming the
      file makes Git add what is now below it. */
  lemma ReplacedFileIsRefused(file: Path, inner: Path, was: Blob, now: Blob)
    requires Under(inner, file)
    ensures var s := State(map[file := was], map[file := was], map[inner := now]);
            && Sane(s) && ScopedPlan(s, [file]) && !Alone(s, {file})
            && Staged(AfterStage(s, {file})) == {file, inner}
  {
    var s := State(map[file := was], map[file := was], map[inner := now]);
    assert Get(s.head, inner) == None && Get(s.work, file) == None;
    assert Dirty(s) == {file, inner} && Set([file]) == {file};
    assert Covers({file}, inner) && AtOrUnder(file, file) && Covers({file}, file);
    forall p ensures p in Staged(AfterStage(s, {file})) <==> p in {file, inner} {
      StagedAfterAdd(s, {file}, p);
    }
  }

  /** A prefix commit of what is now below a file that gave way to a directory is refused though nothing
      interferes: adding it takes the file itself along. */
  lemma ReplacedFilePrefixIsRefused(file: Path, inner: Path, was: Blob, now: Blob)
    requires Under(inner, file)
    ensures var s := State(map[file := was], map[file := was], map[inner := now]);
            && Sane(s) && PrefixPlan(s, [inner]) && !WholeReplacements(s, [inner])
            && Selected(s, [inner]) == {inner} && Staged(AfterStage(s, {inner})) == {file, inner}
  {
    var s := State(map[file := was], map[file := was], map[inner := now]);
    assert Get(s.head, inner) == None && Get(s.work, file) == None;
    assert Dirty(s) == {file, inner};
    assert AtOrUnder(inner, [inner][0]) && !AtOrUnder(file, inner);
    assert Selected(s, [inner]) == {inner};
    assert AtOrUnder(inner, inner) && Covers({inner}, inner) && Displaced(s, {inner}, file);
    forall p ensures p in Staged(AfterStage(s, {inner})) <==> p in {file, inner} {
      StagedAfterAdd(s, {inner}, p);
    }
  }

  // ---------------------------------------------------------------- exact commits

  /** What an exact commit needs once it is planned: every pathspec matches something, and no path it adds was
      put back to what HEAD holds. */
  predicate ExactStages(s: State, stageable: set<Path>) {
    && SpecsMatch(s, stageable)
    && forall p :: p in Dirty(s) ==> Covers(stageable, p) ==> Get(s.head, p) != Get(s.work, p)
  }

  /** Rename sources that exist again as untracked files. */
  function LeftBehind(s: State, stageable: set<Path>): set<Path> {
    set p | p in Dirty(s) && !Covers(stageable, p) && p in s.work
  }

  lemma ExactAfterAdd(s: State, detected: set<Path>, p: Path)
    requires Sane(s)
    ensures var stageable := Stageable(s, Dirty(s), detected);
            var after := AfterStage(s, stageable);
            && (p in Staged(after) <==> p in Dirty(s) && (Covers(stageable, p) ==> Get(s.head, p) != Get(s.work, p)))
            && (p in Dirty(after) ==> p in Dirty(s))
            && (p in Dirty(AfterCommit(after)) <==> p in LeftBehind(s, stageable))
  {
    var stageable := Stageable(s, Dirty(s), detected);
    if p !in Dirty(s) {
      CleanStays(s, stageable, p);
    } else if p in stageable {
      assert AtOrUnder(p, p) && Covers(stageable, p);
    } else {
      assert Get(s.index, p) == None && Get(s.head, p).Some?;
    }
  }

  lemma StagedIsAllDirty(s: State, stageable: set<Path>, after: State)
    requires forall p :: p in Staged(after) <==>
             p in Dirty(s) && (Covers(stageable, p) ==> Get(s.head, p) != Get(s.work, p))
    requires forall p :: p in Dirty(after) ==> p in Dirty(s)
    ensures SpecsMatch(s, stageable) && Staged(after) == Dirty(s) && Dirty(after) == Dirty(s) <==>
            ExactStages(s, stageable)
  {
    if ExactStages(s, stageable) {
      assert Staged(after) == Dirty(s);
    }
  }

  /** From any index, an exact commit that nothing disturbs goes through exactly under that condition. */
  lemma ExactVerifies(s: State, detected: set<Path>)
    requires Sane(s)
    ensures var stageable := Stageable(s, Dirty(s), detected);
            var after := AfterStage(s, stageable);
            && (SpecsMatch(s, stageable) && Staged(after) == Dirty(s) && Dirty(after) == Dirty(s) <==>
                ExactStages(s, stageable))
            && Dirty(AfterCommit(after)) == LeftBehind(s, stageable)
  {
    var stageable := Stageable(s, Dirty(s), detected);
    var after := AfterStage(s, stageable);
    forall p
      ensures p in Staged(after) <==> p in Dirty(s) && (Covers(stageable, p) ==> Get(s.head, p) != Get(s.work, p))
      ensures p in Dirty(after) ==> p in Dirty(s)
      ensures p in Dirty(AfterCommit(after)) <==> p in LeftBehind(s, stageable)
    {
      ExactAfterAdd(s, detected, p);
    }
    assert Dirty(AfterCommit(after)) == LeftBehind(s, stageable);
    StagedIsAllDirty(s, stageable, after);
  }

  /** Two trees hold the same at these paths. */
  predicate SameAt(a: Files, b: Files, paths: set<Path>) {
    forall p :: p in paths ==> Get(a, p) == Get(b, p)
  }

  /** Nobody changed what a commit takes up: not the worktree at the paths it adds, nor by bringing back a
      rename source, before staging; not the index after it. */
  predicate ContentKept(s: State, expected: set<Path>, detected: set<Path>, before: Outside, after: Outside) {
    var staging := After(s, before);
    match after
    case Moved(index, _) => SameAt(s.work, index, expected)
    case Quiet =>
      forall p :: p in expected ==>
        if p in detected * StagedDeletions(staging) && !Covers(Stageable(staging, expected, detected), p)
        then p !in s.work
        else Get(s.work, p) == Get(staging.work, p)
  }

  /** What the index holds when a commit has been staged and verified. */
  lemma StagedContent(s: State, expected: set<Path>, detected: set<Path>, before: Outside, after: Outside)
    ensures var staging := After(s, before);
            var staged := After(AfterStage(staging, Stageable(staging, expected, detected)), after);
            SameAt(s.work, staged.index, expected) <==> ContentKept(s, expected, detected, before, after)
  {
    var staging := After(s, before);
    var stageable := Stageable(staging, expected, detected);
    forall p | p in expected ensures p in stageable ==> Covers(stageable, p) {
      assert AtOrUnder(p, p);
    }
    forall p | p in expected && !Covers(stageable, p)
      ensures p !in staging.index && Get(AddedIndex(staging, stageable), p) == None {
      assert Get(staging.index, p) == None;
    }
  }

  /** A file changed again between plan and staging is committed as it then is: both checks compare paths only. */
  lemma UnreviewedContentIsCommitted(file: Path, was: Blob, planned: Blob, later: Blob)
    requires was != planned && was != later && planned != later
    ensures var s := State(map[file := was], map[file := was], map[file := planned]);
            var before := Moved(map[file := was], map[file := later]);
            var staging := After(s, before);
            var staged := AfterStage(staging, Stageable(staging, {file}, {}));
            && Sane(s) && ExactPlan(s, [file]) && SpecsMatch(staging, {file})
            && Staged(staged) == {file} && Dirty(staged) == {file}
            && Get(AfterCommit(staged).head, file) == Some(later) && !ContentKept(s, {file}, {}, before, Quiet)
  {
    var s := State(map[file := was], map[file := was], map[file := planned]);
    var staging := State(map[file := was], map[file := was], map[file := later]);
    assert Get(s.head, file) == Some(was) && Get(s.work, file) == Some(planned)
           && Get(staging.work, file) == Some(later);
    assert Dirty(s) == {file} && Set([file]) == {file};
    assert Stageable(staging, {file}, {}) == {file};
    assert AtOrUnder(file, file) && Covers({file}, file);
    var staged := AfterStage(staging, {file});
    assert Get(staged.index, file) == Some(later);
    forall p ensures (p in Staged(staged) <==> p == file) && (p in Dirty(staged) <==> p == file) {
      if p != file {
        CleanStays(staging, {file}, p);
      }
    }
  }

  /** A file deleted from both index and worktree cannot be committed by an exact plan unless Git reports it as
      a rename's source: `git add` matches nothing. */
  lemma StagedDeletionIsRefused(file: Path, was: Blob)
    ensures var s := State(map[file := was], map[], map[]);
            ExactPlan(s, [file]) && !ExactStages(s, Stageable(s, {file}, {}))
              && ExactStages(s, Stageable(s, {file}, {file}))
  {
    var s := State(map[file := was], map[], map[]);
    assert Get(s.head, file) == Some(was);
    assert Dirty(s) == {file} && Set([file]) == {file};
    assert file in Stageable(s, {file}, {});
    assert Stageable(s, {file}, {file}) == {};
  }

  /** A change that was staged and then put back in the worktree is dirty, but cannot be committed exactly. */
  lemma RevertedChangeIsRefused(file: Path, was: Blob, now: Blob)
    requires was != now
    ensures var s := State(map[file := was], map[file := now], map[file := was]);
            Sane(s) && ExactPlan(s, [file]) && SpecsMatch(s, {file}) && !ExactStages(s, Stageable(s, {file}, {}))
  {
    var s := State(map[file := was], map[file := now], map[file := was]);
    assert Get(s.head, file) == Some(was) == Get(s.work, file) && Get(s.index, file) == Some(now);
    assert Dirty(s) == {file} && Set([file]) == {file} && Stageable(s, {file}, {}) == {file};
    assert AtOrUnder(file, file) && Covers({file}, file);
  }

  /** A rename whose source exists again: the exact commit goes through and leaves the source behind, untracked. */
  lemma RecreatedSourceIsLeft(source: Path, target: Path, was: Blob, now: Blob)
    requires source != target && !Under(source, target) && !Under(target, source)
    ensures var s := State(map[source := was], map[target := was], map[source := now, target := was]);
            && Sane(s) && ExactPlan(s, [source, target])
            && ExactStages(s, Stageable(s, {source, target}, {source}))
            && LeftBehind(s, Stageable(s, {source, target}, {source})) == {source}
  {
    var s := State(map[source := was], map[target := was], map[source := now, target := was]);
    assert Get(s.head, source) == Some(was) && Get(s.index, target) == Some(was);
    assert Dirty(s) == {source, target} && Set([source, target]) == {source, target};
    assert Stageable(s, {source, target}, {source}) == {target};
    assert AtOrUnder(target, target) && Covers({target}, target) && !Covers({target}, source);
  }
}
