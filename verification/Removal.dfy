/** The recursive removal of `fs/rooted.rs` as a run: each operation resolves its root when it starts, and between
    operations the names of roots may be bound anew. */
module Removals {
  import opened Options
  import opened Inodes
  import opened DiskSpec

  /** A root that is already open, or one that is opened by its name for every operation. */
  datatype Authority = Anchored(root: Ino) | Named(name: Name)

  /** What the names of roots lead to when each operation starts. */
  type Bindings = nat -> map<Name, Ino>

  /** Where a run has come to: the disk, the number of operations started, and whether it goes on. */
  datatype Outcome = Outcome(inodes: Inodes, tick: nat, ok: bool)

  function RootAt(fs: Inodes, authority: Authority, bindings: Bindings, tick: nat): Option<Ino> {
    match authority
    case Anchored(root) => if IsDir(fs, root) then Some(root) else None
    case Named(name) =>
      var bound := bindings(tick);
      if name in bound && IsDir(fs, bound[name]) then Some(bound[name]) else None
  }

  /** `remove_file`, or `remove_dir` with the flag. */
  ghost function UnlinkRun(fs: Inodes, authority: Authority, bindings: Bindings, tick: nat, path: seq<Name>,
                           removeDir: bool): Outcome {
    var root := RootAt(fs, authority, bindings, tick);
    if root.Some? && path != [] && Removable(fs, Walk(fs, root.value, path), removeDir)
    then Outcome(Detached(fs, root.value, path), tick + 1, true)
    else Outcome(fs, tick + 1, false)
  }

  lemma UnlinkRunIsSane(fs: Inodes, rank: Ino -> nat, authority: Authority, bindings: Bindings, tick: nat,
                        path: seq<Name>, removeDir: bool)
    requires Sane(fs, rank)
    ensures var o := UnlinkRun(fs, authority, bindings, tick, path, removeDir);
            Sane(o.inodes, rank) && Shrunk(fs, o.inodes)
  {
    var root := RootAt(fs, authority, bindings, tick);
    if root.Some? && path != [] && Removable(fs, Walk(fs, root.value, path), removeDir) {
      DetachedIsShrunk(fs, root.value, path);
      DetachedIsSane(fs, rank, Detached(fs, root.value, path));
    }
  }

  /** `remove_dir_all`. */
  ghost function RemoveRun(fs: Inodes, rank: Ino -> nat, authority: Authority, bindings: Bindings, tick: nat,
                           path: seq<Name>): (o: Outcome)
    requires Sane(fs, rank)
    ensures Sane(o.inodes, rank) && Shrunk(fs, o.inodes)
    decreases Levels(fs.Keys, rank, |path|), 1, 0
  {
    var root := RootAt(fs, authority, bindings, tick);
    if root.None? || path == [] || !LeadsToDir(fs, root.value, path) then Outcome(fs, tick + 1, false)
    else
      var d := Walk(fs, root.value, path).value;
      PathIsShort(fs, rank, root.value, path, d);
      var each := EachRun(fs, rank, authority, bindings, tick + 1, path, Listing(fs, d));
      if !each.ok then each
      else
        UnlinkRunIsSane(each.inodes, rank, authority, bindings, each.tick, path, true);
        ShrunkTwice(fs, each.inodes, UnlinkRun(each.inodes, authority, bindings, each.tick, path, true).inodes);
        UnlinkRun(each.inodes, authority, bindings, each.tick, path, true)
  }

  /** Its loop: recurse into directories, unlink anything else, stop at the first failure. */
  ghost function EachRun(fs: Inodes, rank: Ino -> nat, authority: Authority, bindings: Bindings, tick: nat,
                         path: seq<Name>,
                         listed: seq<Listed>): (o: Outcome)
    requires Sane(fs, rank) && Shallow(fs.Keys, rank, path)
    ensures Sane(o.inodes, rank) && Shrunk(fs, o.inodes)
    decreases Levels(fs.Keys, rank, |path|), 0, |listed|
  {
    if listed == [] then Outcome(fs, tick, true)
    else
      var first := EntryRun(fs, rank, authority, bindings, tick, path, listed[0]);
      if !first.ok then first
      else
        var rest := EachRun(first.inodes, rank, authority, bindings, first.tick, path, listed[1..]);
        ShrunkTwice(fs, first.inodes, rest.inodes);
        rest
  }

  ghost function EntryRun(fs: Inodes, rank: Ino -> nat, authority: Authority, bindings: Bindings, tick: nat,
                          path: seq<Name>,
                          entry: Listed): (o: Outcome)
    requires Sane(fs, rank) && Shallow(fs.Keys, rank, path)
    ensures Sane(o.inodes, rank) && Shrunk(fs, o.inodes)
    decreases Levels(fs.Keys, rank, |path|), 0, 0
  {
    if entry.kind.Directory? then RemoveRun(fs, rank, authority, bindings, tick, path + [entry.name])
    else
      UnlinkRunIsSane(fs, rank, authority, bindings, tick, path + [entry.name], false);
      UnlinkRun(fs, authority, bindings, tick, path + [entry.name], false)
  }

  // ---------------------------------------------------------------- when nobody redirects the root

  function Bound(names: map<Name, Ino>, name: Name): Option<Ino> {
    if name in names then Some(names[name]) else None
  }

  /** An open root, or a name that keeps leading where it does now. */
  ghost predicate Settled(authority: Authority, bindings: Bindings, tick: nat) {
    authority.Named? ==> forall i: nat :: i >= tick ==>
      Bound(bindings(i), authority.name) == Bound(bindings(tick), authority.name)
  }

  lemma RootStays(fs: Inodes, gs: Inodes, authority: Authority, bindings: Bindings, tick: nat, later: nat)
    requires Settled(authority, bindings, tick) && Shrunk(fs, gs) && later >= tick
    ensures RootAt(gs, authority, bindings, later) == RootAt(fs, authority, bindings, tick)
    ensures Settled(authority, bindings, later)
  {
    assert forall i :: IsDir(gs, i) <==> IsDir(fs, i);
    if authority.Named? {
      assert Bound(bindings(later), authority.name) == Bound(bindings(tick), authority.name);
    }
  }

  /** The run removes what a removal from this root should remove, or nothing if there is no directory. */
  ghost predicate Exact(fs: Inodes, root: Option<Ino>, path: seq<Name>, o: Outcome) {
    && (o.ok <==> root.Some? && path != [] && LeadsToDir(fs, root.value, path))
    && o.inodes == if o.ok then Detached(fs, root.value, path) else fs
  }

  /** What the loop has left to do, and what it has done. */
  ghost predicate Halfway(fs: Inodes, rank: Ino -> nat, root: Ino, path: seq<Name>, d: Ino, listed: seq<Listed>,
                          k: nat, gs: Inodes) {
    && Sane(fs, rank) && Sane(gs, rank) && path != [] && Walk(fs, root, path) == Some(d) && IsDir(fs, d)
    && ListsAll(fs, d, listed) && k <= |listed| && gs == Emptied(fs, d, NamesOf(listed[..k]))
  }

  lemma EntryRunIsExact(fs: Inodes, rank: Ino -> nat, authority: Authority, bindings: Bindings, tick: nat, root: Ino,
                        path: seq<Name>, d: Ino, listed: seq<Listed>, k: nat, gs: Inodes)
    requires Halfway(fs, rank, root, path, d, listed, k, gs) && k < |listed| && Shallow(gs.Keys, rank, path)
    requires Settled(authority, bindings, tick) && RootAt(gs, authority, bindings, tick) == Some(root)
    ensures var o := EntryRun(gs, rank, authority, bindings, tick, path, listed[k]);
            o.ok && o.tick >= tick && Halfway(fs, rank, root, path, d, listed, k + 1, o.inodes)
    decreases Levels(gs.Keys, rank, |path|), 0, 0
  {
    assert listed[k] in listed;
    NotYetGone(listed, k);
    EntryGoes(fs, rank, root, path, d, NamesOf(listed[..k]), listed[k]);
    if listed[k].kind.Directory? {
      RemoveRunIsExact(gs, rank, authority, bindings, tick, path + [listed[k].name]);
    }
  }

  lemma EachRunIsExact(fs: Inodes, rank: Ino -> nat, authority: Authority, bindings: Bindings, tick: nat, root: Ino,
                       path: seq<Name>, d: Ino, listed: seq<Listed>, k: nat, gs: Inodes)
    requires Halfway(fs, rank, root, path, d, listed, k, gs) && Shallow(gs.Keys, rank, path)
    requires Settled(authority, bindings, tick) && RootAt(gs, authority, bindings, tick) == Some(root)
    ensures var o := EachRun(gs, rank, authority, bindings, tick, path, listed[k..]);
            o.ok && o.tick >= tick && Halfway(fs, rank, root, path, d, listed, |listed|, o.inodes)
    decreases Levels(gs.Keys, rank, |path|), 0, |listed[k..]|
  {
    if k < |listed| {
      assert listed[k..][0] == listed[k] && listed[k..][1..] == listed[k + 1..];
      EntryRunIsExact(fs, rank, authority, bindings, tick, root, path, d, listed, k, gs);
      var first := EntryRun(gs, rank, authority, bindings, tick, path, listed[k]);
      RootStays(gs, first.inodes, authority, bindings, tick, first.tick);
      EachRunIsExact(fs, rank, authority, bindings, first.tick, root, path, d, listed, k + 1, first.inodes);
    } else {
      assert listed[k..] == [];
    }
  }

  lemma WholeLoopIsExact(fs: Inodes, rank: Ino -> nat, authority: Authority, bindings: Bindings, tick: nat, root: Ino,
                         path: seq<Name>, d: Ino, listed: seq<Listed>)
    requires Sane(fs, rank) && Settled(authority, bindings, tick) && RootAt(fs, authority, bindings, tick) == Some(root)
    requires path != [] && Walk(fs, root, path) == Some(d) && IsDir(fs, d) && ListsAll(fs, d, listed)
    requires Shallow(fs.Keys, rank, path)
    ensures var o := EachRun(fs, rank, authority, bindings, tick, path, listed);
            o.ok && o.tick >= tick && o.inodes == Emptied(fs, d, fs[d].entries.Keys)
    decreases Levels(fs.Keys, rank, |path|), 0, |listed| + 1
  {
    NothingGone(fs, d);
    assert NamesOf(listed[..0]) == {} && listed[0..] == listed;
    EachRunIsExact(fs, rank, authority, bindings, tick, root, path, d, listed, 0, fs);
    AllGone(fs, d, listed);
  }

  lemma LastStepIsExact(fs: Inodes, rank: Ino -> nat, authority: Authority, bindings: Bindings, tick: nat, root: Ino,
                        path: seq<Name>, d: Ino, gs: Inodes)
    requires Sane(fs, rank) && path != [] && Walk(fs, root, path) == Some(d) && IsDir(fs, d)
    requires gs == Emptied(fs, d, fs[d].entries.Keys) && RootAt(gs, authority, bindings, tick) == Some(root)
    ensures UnlinkRun(gs, authority, bindings, tick, path, true) == Outcome(Detached(fs, root, path), tick + 1, true)
  {
    LastIsDetached(fs, rank, root, path, d);
  }

  /** How a run that finds its directory goes. */
  lemma RunParts(fs: Inodes, rank: Ino -> nat, authority: Authority, bindings: Bindings, tick: nat, root: Ino,
                 path: seq<Name>, d: Ino)
    requires Sane(fs, rank) && RootAt(fs, authority, bindings, tick) == Some(root)
    requires path != [] && Walk(fs, root, path) == Some(d) && IsDir(fs, d) && Shallow(fs.Keys, rank, path)
    ensures var each := EachRun(fs, rank, authority, bindings, tick + 1, path, Listing(fs, d));
            RemoveRun(fs, rank, authority, bindings, tick, path) ==
            if each.ok then UnlinkRun(each.inodes, authority, bindings, each.tick, path, true) else each
  {
  }

  lemma FoundRunIsExact(fs: Inodes, rank: Ino -> nat, authority: Authority, bindings: Bindings, tick: nat, root: Ino,
                        path: seq<Name>, d: Ino) returns (end: nat)
    requires Sane(fs, rank) && Settled(authority, bindings, tick) && RootAt(fs, authority, bindings, tick) == Some(root)
    requires path != [] && Walk(fs, root, path) == Some(d) && IsDir(fs, d) && Shallow(fs.Keys, rank, path)
    ensures RemoveRun(fs, rank, authority, bindings, tick, path) == Outcome(Detached(fs, root, path), end, true)
            && end >= tick
    decreases Levels(fs.Keys, rank, |path|), 0, |Listing(fs, d)| + 2
  {
    RootStays(fs, fs, authority, bindings, tick, tick + 1);
    WholeLoopIsExact(fs, rank, authority, bindings, tick + 1, root, path, d, Listing(fs, d));
    var each := EachRun(fs, rank, authority, bindings, tick + 1, path, Listing(fs, d));
    RootStays(fs, each.inodes, authority, bindings, tick, each.tick);
    LastStepIsExact(fs, rank, authority, bindings, each.tick, root, path, d, each.inodes);
    RunParts(fs, rank, authority, bindings, tick, root, path, d);
    end := each.tick + 1;
  }

  lemma RefusedRunIsExact(fs: Inodes, rank: Ino -> nat, authority: Authority, bindings: Bindings, tick: nat,
                          path: seq<Name>)
    requires Sane(fs, rank)
    requires var root := RootAt(fs, authority, bindings, tick);
             root.None? || path == [] || !LeadsToDir(fs, root.value, path)
    ensures RemoveRun(fs, rank, authority, bindings, tick, path) == Outcome(fs, tick + 1, false)
  {
  }

  /** With a settled root the removal is exact. */
  lemma RemoveRunIsExact(fs: Inodes, rank: Ino -> nat, authority: Authority, bindings: Bindings, tick: nat,
                         path: seq<Name>)
    requires Sane(fs, rank) && Settled(authority, bindings, tick)
    ensures var o := RemoveRun(fs, rank, authority, bindings, tick, path);
            Exact(fs, RootAt(fs, authority, bindings, tick), path, o) && o.tick >= tick
    decreases Levels(fs.Keys, rank, |path|), 1, 0
  {
    var root := RootAt(fs, authority, bindings, tick);
    if root.Some? && path != [] && LeadsToDir(fs, root.value, path) {
      var d := Walk(fs, root.value, path).value;
      PathIsShort(fs, rank, root.value, path, d);
      var end := FoundRunIsExact(fs, rank, authority, bindings, tick, root.value, path, d);
    } else {
      RefusedRunIsExact(fs, rank, authority, bindings, tick, path);
    }
  }

  // ---------------------------------------------------------------- when somebody does

  /** Two roots, 0 and 3, each with a directory `a` that holds a file `a`. */
  function TwoRoots(a: Name, bytes: seq<int>): Inodes {
    map[0 := Dir(map[a := 1]), 1 := Dir(map[a := 2]), 2 := Regular(bytes),
        3 := Dir(map[a := 4]), 4 := Dir(map[a := 5]), 5 := Regular(bytes)]
  }

  function TwoRanks(i: Ino): nat {
    if i == 0 || i == 3 then 1 else 0
  }

  lemma TwoRootsAreSane(a: Name, bytes: seq<int>)
    requires a != []
    ensures Sane(TwoRoots(a, bytes), TwoRanks)
  {
    EntriesOfTwoRoots(a, bytes);
  }

  lemma EntriesOfTwoRoots(a: Name, bytes: seq<int>)
    ensures var fs := TwoRoots(a, bytes);
            && (forall d, n :: HasEntry(fs, d, n) <==> n == a && (d == 0 || d == 1 || d == 3 || d == 4))
            && At(fs, 0, a) == 1 && At(fs, 1, a) == 2 && At(fs, 3, a) == 4 && At(fs, 4, a) == 5
  {
  }

  /** The name leads to root 0 when the removal starts and to root 3 from then on. */
  function Redirecting(name: Name): Bindings {
    tick => if tick == 0 then map[name := 0] else map[name := 3]
  }

  lemma ListingOfOne(fs: Inodes, d: Ino, n: Name)
    requires IsDir(fs, d) && fs[d].entries.Keys == {n} && HasEntry(fs, d, n)
    ensures Listing(fs, d) == [Listed(n, KindOf(fs[At(fs, d, n)]))]
  {
    var listed, entry := Listing(fs, d), Listed(n, KindOf(fs[At(fs, d, n)]));
    assert entry in listed;
    forall i | 0 <= i < |listed| ensures listed[i] == entry {
      assert listed[i] in listed;
    }
    assert |listed| > 1 ==> listed[0].name != listed[1].name;
  }

  lemma WalksOfTwoRoots(a: Name, bytes: seq<int>)
    ensures var fs := TwoRoots(a, bytes);
            && Walk(fs, 0, [a]) == Some(1)
            && Walk(fs, 3, []) == Some(3) && Walk(fs, 3, [a]) == Some(4) && Walk(fs, 3, [a, a]) == Some(5)
  {
    assert [a][..0] == [] && [a, a][..1] == [a];
    EntriesOfTwoRoots(a, bytes);
  }

  /** The file `a` was listed below the first root; the second one loses its file of that name. */
  lemma FileIsTaken(a: Name, bytes: seq<int>, rank: Ino -> nat, authority: Authority, bindings: Bindings, tick: nat)
    requires var fs := TwoRoots(a, bytes); Sane(fs, rank) && RootAt(fs, authority, bindings, tick) == Some(3)
    ensures var fs := TwoRoots(a, bytes);
            UnlinkRun(fs, authority, bindings, tick, [a, a], false) == Outcome(fs[4 := Dir(map[])], tick + 1, true)
  {
    var fs := TwoRoots(a, bytes);
    WalksOfTwoRoots(a, bytes);
    assert [a, a][..1] == [a];
    LeafIsDetached(fs, rank, 3, [a, a], 4, 5);
    assert map[a := 5] - {a} == map[];
  }

  /** Its directory follows. */
  lemma DirectoryIsTaken(a: Name, bytes: seq<int>, rank: Ino -> nat, authority: Authority, bindings: Bindings,
                         tick: nat)
    requires var gs := TwoRoots(a, bytes)[4 := Dir(map[])];
             Sane(gs, rank) && RootAt(gs, authority, bindings, tick) == Some(3)
    ensures var gs := TwoRoots(a, bytes)[4 := Dir(map[])];
            UnlinkRun(gs, authority, bindings, tick, [a], true) == Outcome(gs[3 := Dir(map[])], tick + 1, true)
  {
    var gs := TwoRoots(a, bytes)[4 := Dir(map[])];
    assert [a][..0] == [] && Walk(gs, 3, []) == Some(3) && HasEntry(gs, 3, a) && At(gs, 3, a) == 4;
    assert Walk(gs, 3, [a]) == Some(4);
    LeafIsDetached(gs, rank, 3, [a], 3, 4);
    assert map[a := 4] - {a} == map[];
  }

  lemma LoopOfOne(fs: Inodes, rank: Ino -> nat, authority: Authority, bindings: Bindings, tick: nat, path: seq<Name>,
                  entry: Listed)
    requires Sane(fs, rank) && Shallow(fs.Keys, rank, path)
             && EntryRun(fs, rank, authority, bindings, tick, path, entry).ok
    ensures EachRun(fs, rank, authority, bindings, tick, path, [entry]) ==
            EntryRun(fs, rank, authority, bindings, tick, path, entry)
  {
    assert [entry][1..] == [];
  }

  lemma RunAfterLoop(fs: Inodes, rank: Ino -> nat, authority: Authority, bindings: Bindings, tick: nat, path: seq<Name>,
                     root: Ino, d: Ino)
    requires Sane(fs, rank) && RootAt(fs, authority, bindings, tick) == Some(root) && path != []
    requires Walk(fs, root, path) == Some(d) && IsDir(fs, d) && Shallow(fs.Keys, rank, path)
    requires EachRun(fs, rank, authority, bindings, tick + 1, path, Listing(fs, d)).ok
    ensures var each := EachRun(fs, rank, authority, bindings, tick + 1, path, Listing(fs, d));
            RemoveRun(fs, rank, authority, bindings, tick, path) ==
            UnlinkRun(each.inodes, authority, bindings, each.tick, path, true)
  {
  }

  /** The loop over the first root's directory meets the second root's file. */
  lemma LoopIsRedirected(a: Name, bytes: seq<int>, rank: Ino -> nat, authority: Authority, bindings: Bindings,
                         tick: nat)
    requires var fs := TwoRoots(a, bytes);
             Sane(fs, rank) && RootAt(fs, authority, bindings, tick) == Some(3) && Shallow(fs.Keys, rank, [a])
    ensures var fs := TwoRoots(a, bytes);
            EachRun(fs, rank, authority, bindings, tick, [a], Listing(fs, 1)) ==
              Outcome(fs[4 := Dir(map[])], tick + 1, true)
  {
    var fs := TwoRoots(a, bytes);
    EntriesOfTwoRoots(a, bytes);
    ListingOfOne(fs, 1, a);
    assert [a] + [a] == [a, a];
    FileIsTaken(a, bytes, rank, authority, bindings, tick);
    LoopOfOne(fs, rank, authority, bindings, tick, [a], Listed(a, File));
  }

  lemma RunIsRedirected(a: Name, bytes: seq<int>, rank: Ino -> nat, authority: Authority, bindings: Bindings,
                        start: nat)
    requires var fs := TwoRoots(a, bytes);
             && Sane(fs, rank) && RootAt(fs, authority, bindings, start) == Some(0)
             && RootAt(fs, authority, bindings, start + 1) == Some(3)
             && RootAt(fs[4 := Dir(map[])], authority, bindings, start + 2) == Some(3)
    ensures var fs := TwoRoots(a, bytes);
            var o := RemoveRun(fs, rank, authority, bindings, start, [a]);
            o.ok && o.inodes == fs[4 := Dir(map[])][3 := Dir(map[])]
  {
    var fs := TwoRoots(a, bytes);
    WalksOfTwoRoots(a, bytes);
    PathIsShort(fs, rank, 0, [a], 1);
    LoopIsRedirected(a, bytes, rank, authority, bindings, start + 1);
    RunAfterLoop(fs, rank, authority, bindings, start, [a], 0, 1);
    DirectoryIsTaken(a, bytes, rank, authority, bindings, start + 2);
  }

  /** The name is bound anew while the removal runs: what was to go stays, and what had the same names below the
      new root goes instead. */
  lemma NamedRootIsRedirected(name: Name, a: Name, bytes: seq<int>, rank: Ino -> nat)
    requires Sane(TwoRoots(a, bytes), rank)
    ensures var fs := TwoRoots(a, bytes);
            var o := RemoveRun(fs, rank, Named(name), Redirecting(name), 0, [a]);
            o.ok && o.inodes == fs[4 := Dir(map[])][3 := Dir(map[])]
  {
    RunIsRedirected(a, bytes, rank, Named(name), Redirecting(name), 0);
  }

  /** On every disk, from every moment on and for every path, the run is exact. */
  ghost predicate AlwaysExact(authority: Authority, bindings: Bindings) {
    forall fs, rank, tick: nat, path :: Sane(fs, rank) ==>
      Exact(fs, RootAt(fs, authority, bindings, tick), path, RemoveRun(fs, rank, authority, bindings, tick, path))
  }

  lemma AnchoredIsAlwaysExact(authority: Authority, bindings: Bindings)
    requires authority.Anchored?
    ensures AlwaysExact(authority, bindings)
  {
    forall fs, rank, tick: nat, path | Sane(fs, rank)
      ensures Exact(fs, RootAt(fs, authority, bindings, tick), path,
                    RemoveRun(fs, rank, authority, bindings, tick, path))
    {
      RemoveRunIsExact(fs, rank, authority, bindings, tick, path);
    }
  }

  /** An exact removal takes the name from the first root. */
  lemma ExactTakesName(a: Name, bytes: seq<int>)
    ensures Walk(TwoRoots(a, bytes), 0, [a]).Some? && Detached(TwoRoots(a, bytes), 0, [a])[0] != TwoRoots(a, bytes)[0]
  {
    var fs := TwoRoots(a, bytes);
    WalksOfTwoRoots(a, bytes);
    assert [a][..0] == [] && Walk(fs, 0, []) == Some(0);
    DetachedAt(fs, 0, [a], 0, 1, 0);
    assert a in fs[0].entries && a !in fs[0].entries - {a};
  }

  lemma NotExactBy(fs: Inodes, root: Ino, path: seq<Name>, o: Outcome, i: Ino)
    requires o.ok && path != [] && Walk(fs, root, path).Some? && i in fs && i in o.inodes
    requires o.inodes[i] != Detached(fs, root, path)[i]
    ensures !Exact(fs, Some(root), path, o)
  {
  }

  lemma RedirectedIsNotExact(name: Name, a: Name, bytes: seq<int>, rank: Ino -> nat)
    requires Sane(TwoRoots(a, bytes), rank)
    ensures !Exact(TwoRoots(a, bytes), Some(0), [a],
                   RemoveRun(TwoRoots(a, bytes), rank, Named(name), Redirecting(name), 0, [a]))
  {
    NamedRootIsRedirected(name, a, bytes, rank);
    ExactTakesName(a, bytes);
    var o := RemoveRun(TwoRoots(a, bytes), rank, Named(name), Redirecting(name), 0, [a]);
    NotExactBy(TwoRoots(a, bytes), 0, [a], o, 0);
  }

  lemma NotExactOnce(authority: Authority, bindings: Bindings, fs: Inodes, rank: Ino -> nat, tick: nat, path: seq<Name>)
    requires Sane(fs, rank)
    requires !Exact(fs, RootAt(fs, authority, bindings, tick), path,
                    RemoveRun(fs, rank, authority, bindings, tick, path))
    ensures !AlwaysExact(authority, bindings)
  {
  }

  lemma NamedIsNotAlwaysExact(name: Name)
    ensures !AlwaysExact(Named(name), Redirecting(name))
  {
    var a: Name := [97];
    TwoRootsAreSane(a, []);
    RedirectedIsNotExact(name, a, [], TwoRanks);
    NotExactOnce(Named(name), Redirecting(name), TwoRoots(a, []), TwoRanks, 0, [a]);
  }

  /** A recursive removal is exact whatever names are bound to meanwhile if and only if its root is open. */
  lemma ExactExactlyIfAnchored(authority: Authority)
    ensures authority.Anchored? <==> forall bindings: Bindings :: AlwaysExact(authority, bindings)
  {
    if authority.Anchored? {
      forall bindings: Bindings ensures AlwaysExact(authority, bindings) {
        AnchoredIsAlwaysExact(authority, bindings);
      }
    } else {
      NamedIsNotAlwaysExact(authority.name);
    }
  }
}
