/** The tree below one root as paths, over the inodes of a disk: the view that planning and applying work on. */
module RootedTree {
  import opened Options
  import opened Lexicographic
  import opened Inodes
  import opened DiskSpec
  import opened Removals
  import opened Disks

  /** A path as `read_dir` spells it: names joined by slashes. */
  type Path = Text

  datatype Entry = Entry(relative: Path, kind: Kind)

  /** What is below the root, by path. */
  type Tree = map<Path, Kind>

  /** `k` begins with `p` and a separator. */
  predicate Under(k: Path, p: Path) {
    |p| < |k| && k[..|p|] == p && k[|p|] == SLASH
  }

  predicate AtOrUnder(k: Path, p: Path) {
    k == p || Under(k, p)
  }

  predicate IsChild(k: Path, p: Path) {
    Under(k, p) && SLASH !in k[|p| + 1..]
  }

  /** Only directories have anything below them. */
  ghost predicate Closed(t: Tree) {
    && [] !in t
    && forall k, q :: k in t && Under(k, q) ==> q in t && t[q].Directory?
  }

  /** The walk to the path's parent meets something that is not a directory. */
  ghost predicate Blocked(t: Tree, path: Path) {
    path == [] || exists q :: q in t && Under(path, q) && !t[q].Directory?
  }

  ghost function Lookup(t: Tree, path: Path): Result<Option<Kind>> {
    if Blocked(t, path) then Err
    else if path in t then Ok(Some(t[path]))
    else Ok(None)
  }

  predicate IsDirectory(t: Tree, path: Path) {
    path in t && t[path].Directory?
  }

  ghost predicate IsEmpty(t: Tree, path: Path) {
    forall k :: k in t ==> !Under(k, path)
  }

  function Without(t: Tree, path: Path): Tree {
    map k | k in t && !AtOrUnder(k, path) :: t[k]
  }

  // ---------------------------------------------------------------- paths

  lemma UnderTransitive(a: Path, b: Path, c: Path)
    requires Under(a, b) && Under(b, c)
    ensures Under(a, c)
  {
    assert a[..|c|] == a[..|b|][..|c|];
  }

  /** A path sorts after whatever it is under. */
  lemma UnderSortsAfter(k: Path, p: Path)
    requires Under(k, p)
    ensures Less(p, k)
  {
    assert k == p + k[|p|..];
    PrefixIsLess(p, k[|p|..]);
  }

  /** The child through which `k` hangs below `p`. */
  function Hanging(k: Path, p: Path, n: nat): (child: Path)
    requires Under(k, p) && |p| < n <= |k| && SLASH !in k[|p| + 1..n]
    ensures IsChild(child, p) && AtOrUnder(k, child)
    decreases |k| - n
  {
    if n == |k| then
      assert k[|p| + 1..n] == k[|p| + 1..];
      k
    else if k[n] == SLASH then
      assert k[..n][..|p|] == k[..|p|];
      assert k[..n][|p| + 1..] == k[|p| + 1..n];
      k[..n]
    else
      assert k[|p| + 1..n + 1] == k[|p| + 1..n] + [k[n]];
      Hanging(k, p, n + 1)
  }

  lemma HangsThroughChild(t: Tree, k: Path, p: Path)
    requires Closed(t) && k in t && Under(k, p)
    ensures exists child :: child in t && IsChild(child, p) && AtOrUnder(k, child)
  {
    assert k[|p| + 1..|p| + 1] == [];
    var child := Hanging(k, p, |p| + 1);
    assert child in t && IsChild(child, p);
  }

  lemma WithoutIsClosed(t: Tree, path: Path)
    requires Closed(t)
    ensures Closed(Without(t, path))
  {
    forall k, q | k in Without(t, path) && Under(k, q) ensures q in Without(t, path) {
      if Under(q, path) {
        UnderTransitive(k, q, path);
      }
    }
  }

  // ---------------------------------------------------------------- components

  /** One past the last separator, or zero. */
  function LeafStart(path: Path): (n: nat)
    ensures n <= |path| && (n > 0 ==> path[n - 1] == SLASH) && SLASH !in path[n..]
  {
    if path == [] || path[|path| - 1] == SLASH then |path|
    else
      var n := LeafStart(path[..|path| - 1]);
      assert path[n..] == path[..|path| - 1][n..] + [path[|path| - 1]];
      n
  }

  /** The components of a path. */
  function Split(path: Path): (names: seq<Name>)
    ensures names != []
    decreases |path|
  {
    var n := LeafStart(path);
    if n == 0 then
      assert path[0..] == path;
      [path]
    else Split(path[..n - 1]) + [path[n..]]
  }

  lemma NoSlashFrom(path: Path, n: nat)
    requires n <= |path| && SLASH !in path[n..]
    ensures forall i :: n <= i < |path| ==> path[i] != SLASH
  {
    forall i | n <= i < |path| ensures path[i] != SLASH {
      assert path[i] == path[n..][i - n];
    }
  }

  lemma LeafStartIs(path: Path, n: nat)
    requires n <= |path| && (n > 0 ==> path[n - 1] == SLASH) && SLASH !in path[n..]
    ensures LeafStart(path) == n
  {
    NoSlashFrom(path, n);
    NoSlashFrom(path, LeafStart(path));
  }

  lemma SplitChild(path: Path, name: Name)
    ensures Split(path + [SLASH] + name) == Split(path) + [name]
  {
    var whole, n := path + [SLASH] + name, |path| + 1;
    assert whole[n..] == name && whole[..n - 1] == path;
    LeafStartIs(whole, n);
  }

  function Spell(names: seq<Name>): Path {
    if names == [] then []
    else if |names| == 1 then names[0]
    else Spell(names[..|names| - 1]) + [SLASH] + names[|names| - 1]
  }

  lemma {:induction false} SpellOfSplit(path: Path)
    ensures Spell(Split(path)) == path
    decreases |path|
  {
    var n := LeafStart(path);
    if n > 0 {
      SpellOfSplit(path[..n - 1]);
      assert Split(path)[..|Split(path)| - 1] == Split(path[..n - 1]);
      assert path == path[..n - 1] + [SLASH] + path[n..];
    }
  }

  lemma SplitInjective(a: Path, b: Path)
    requires Split(a) == Split(b)
    ensures a == b
  {
    SpellOfSplit(a);
    SpellOfSplit(b);
  }

  lemma {:induction false} SplitOfSpell(names: seq<Name>)
    requires names != []
    ensures Split(Spell(names)) == names
  {
    var front, last := names[..|names| - 1], names[|names| - 1];
    if front == [] {
      assert names == [last] && last[0..] == last;
      LeafStartIs(last, 0);
    } else {
      SplitOfSpell(front);
      SplitChild(Spell(front), last);
      assert names == front + [last];
    }
  }

  /** What a path with a separator is under. */
  lemma UnderSteps(k: Path, q: Path, n: nat)
    requires n == LeafStart(k) && n > 0
    ensures Under(k, q) <==> q == k[..n - 1] || Under(k[..n - 1], q)
  {
    var front := k[..n - 1];
    if Under(k, q) {
      assert forall i :: n <= i < |k| ==> k[i] == k[n..][i - n];
      assert |q| <= n - 1;
      assert q == front[..|q|];
    }
    if Under(front, q) {
      assert k[..|q|] == front[..|q|];
    }
  }

  lemma PrefixSteps(a: seq<Name>, b: seq<Name>, x: Name)
    ensures a < b + [x] <==> a == b || a < b
  {
    if a < b + [x] {
      assert a == (b + [x])[..|a|] == b[..|a|];
    }
  }

  /** Being under another path is having its components first. */
  lemma {:induction false} UnderIsPrefix(k: Path, q: Path)
    ensures Under(k, q) <==> Split(q) < Split(k)
    decreases |k|
  {
    var n := LeafStart(k);
    if n == 0 {
      assert k[0..] == k;
    } else {
      UnderIsPrefix(k[..n - 1], q);
      UnderSteps(k, q, n);
      PrefixSteps(Split(q), Split(k[..n - 1]), k[n..]);
      if Split(q) == Split(k[..n - 1]) {
        SplitInjective(q, k[..n - 1]);
      }
    }
  }

  lemma AtOrUnderIsPrefix(k: Path, q: Path)
    ensures AtOrUnder(k, q) <==> Split(q) <= Split(k)
  {
    UnderIsPrefix(k, q);
    if Split(q) == Split(k) {
      SplitInjective(q, k);
    }
  }

  // ---------------------------------------------------------------- the view of a disk

  /** The tree is what walks from the top inode find. */
  ghost predicate Shows(fs: Inodes, top: Ino, t: Tree) {
    forall k: Path {:trigger Walk(fs, top, Split(k))} ::
      && (k in t <==> Walk(fs, top, Split(k)).Some?)
      && (k in t ==> Finds(fs, top, k, t[k]))
  }

  /** The walk to this path ends at something of this kind. */
  predicate Finds(fs: Inodes, top: Ino, k: Path, kind: Kind) {
    var w := Walk(fs, top, Split(k));
    w.Some? && w.value in fs && IsOfKind(fs[w.value], kind)
  }

  lemma {:induction false} WalkPrefix(fs: Inodes, d: Ino, names: seq<Name>, m: nat)
    requires Walk(fs, d, names).Some? && m < |names|
    ensures Walk(fs, d, names[..m]).Some? && IsDir(fs, Walk(fs, d, names[..m]).value)
    decreases |names|
  {
    var front := names[..|names| - 1];
    if m < |front| {
      WalkPrefix(fs, d, front, m);
      assert front[..m] == names[..m];
    } else {
      assert names[..m] == front;
    }
  }

  lemma ViewIsClosed(fs: Inodes, rank: Ino -> nat, top: Ino, t: Tree)
    requires Sane(fs, rank) && Shows(fs, top, t)
    ensures Closed(t)
  {
    assert Walk(fs, top, Split([])).None? by {
      assert Split([])[..|Split([])| - 1] == [];
    }
    forall k, q | k in t && Under(k, q) ensures q in t && t[q].Directory? {
      UnderIsPrefix(k, q);
      assert Walk(fs, top, Split(k)).Some?;
      WalkPrefix(fs, top, Split(k), |Split(q)|);
      assert Split(k)[..|Split(q)|] == Split(q);
      assert Walk(fs, top, Split(q)).Some?;
    }
  }

  /** Taking a name away on disk takes its path and all below it out of the view, and nothing else. */
  lemma ViewOfDetached(fs: Inodes, rank: Ino -> nat, top: Ino, t: Tree, path: Path)
    requires Sane(fs, rank) && Shows(fs, top, t) && Walk(fs, top, Split(path)).Some?
    ensures Shows(Detached(fs, top, Split(path)), top, Without(t, path))
  {
    var gs := Detached(fs, top, Split(path));
    forall k: Path
      ensures k in Without(t, path) <==> Walk(gs, top, Split(k)).Some?
      ensures k in Without(t, path) ==> Finds(gs, top, k, t[k])
    {
      RemainingWalks(fs, rank, top, Split(path), Split(k));
      AtOrUnderIsPrefix(k, path);
      if Walk(fs, top, Split(k)).Some? {
        EverythingElseIsKept(fs, top, Split(path), Walk(fs, top, Split(k)).value);
      }
    }
  }

  // ---------------------------------------------------------------- every disk has a view

  ghost function AllNames(fs: Inodes): set<Name> {
    set i, n | i in fs && IsDir(fs, i) && n in fs[i].entries :: n
  }

  /** Every sequence of at most `length` names. */
  ghost function Sequences(names: set<Name>, length: nat): set<seq<Name>> {
    if length == 0 then {[]} else
    var shorter := Sequences(names, length - 1);
    {[]} + set s, n | s in shorter && n in names :: s + [n]
  }

  lemma {:induction false} SequencesAre(names: set<Name>, length: nat, s: seq<Name>)
    requires |s| <= length && forall n :: n in s ==> n in names
    ensures s in Sequences(names, length)
  {
    if s != [] {
      SequencesAre(names, length - 1, s[..|s| - 1]);
      assert s == s[..|s| - 1] + [s[|s| - 1]];
    }
  }

  lemma {:induction false} WalkUsesNames(fs: Inodes, d: Ino, names: seq<Name>)
    requires Walk(fs, d, names).Some?
    ensures forall n :: n in names ==> n in AllNames(fs)
  {
    if names != [] {
      WalkUsesNames(fs, d, names[..|names| - 1]);
      assert names == names[..|names| - 1] + [names[|names| - 1]];
    }
  }

  /** Directories are finitely deep, so the paths below one are finitely many. */
  lemma WalkIsListed(fs: Inodes, rank: Ino -> nat, top: Ino, names: seq<Name>)
    requires Sane(fs, rank) && names != [] && Walk(fs, top, names).Some?
    ensures names in Sequences(AllNames(fs), rank(top) + 1)
  {
    var front := names[..|names| - 1];
    RankFalls(fs, rank, top, front, Walk(fs, top, front).value);
    WalkUsesNames(fs, top, names);
    SequencesAre(AllNames(fs), rank(top) + 1, names);
  }

  ghost function Paths(fs: Inodes, rank: Ino -> nat, top: Ino): set<Path> {
    set s | s in Sequences(AllNames(fs), rank(top) + 1) :: Spell(s)
  }

  ghost function View(fs: Inodes, rank: Ino -> nat, top: Ino): Tree {
    map k | k in Paths(fs, rank, top) && Walk(fs, top, Split(k)).Some? && Walk(fs, top, Split(k)).value in fs ::
      KindOf(fs[Walk(fs, top, Split(k)).value])
  }

  lemma {:induction false} WalkEndsInside(fs: Inodes, d: Ino, names: seq<Name>)
    requires Walk(fs, d, names).Some?
    ensures Walk(fs, d, names).value in fs
  {
  }

  lemma PathIsListed(fs: Inodes, rank: Ino -> nat, top: Ino, k: Path)
    requires Sane(fs, rank) && Walk(fs, top, Split(k)).Some?
    ensures k in Paths(fs, rank, top) && Walk(fs, top, Split(k)).value in fs
  {
    WalkIsListed(fs, rank, top, Split(k));
    WalkEndsInside(fs, top, Split(k));
    SpellOfSplit(k);
  }

  lemma ViewShows(fs: Inodes, rank: Ino -> nat, top: Ino)
    requires Sane(fs, rank)
    ensures Shows(fs, top, View(fs, rank, top))
  {
    forall k: Path
      ensures k in View(fs, rank, top) <==> Walk(fs, top, Split(k)).Some?
      ensures k in View(fs, rank, top) ==> Finds(fs, top, k, View(fs, rank, top)[k])
    {
      if Walk(fs, top, Split(k)).Some? {
        PathIsListed(fs, rank, top, k);
        KindIs(fs[Walk(fs, top, Split(k)).value], View(fs, rank, top)[k]);
      }
    }
  }

  // ---------------------------------------------------------------- the answers of a disk, by path

  /** The walk to the parent fails exactly if something other than a directory is in the way. */
  lemma {:induction false} ParentBlocked(fs: Inodes, root: Ino, names: seq<Name>)
    requires IsDir(fs, root) && names != []
    ensures ParentOf(fs, root, names).Err? <==>
            exists m :: 0 < m < |names| && Walk(fs, root, names[..m]).Some?
              && !IsDir(fs, Walk(fs, root, names[..m]).value)
  {
    if |names| > 1 {
      var front := names[..|names| - 1];
      ParentBlocked(fs, root, front);
      ParentIsWalk(fs, root, front);
      assert forall m :: 0 < m < |front| ==> front[..m] == names[..m];
      assert names[..|front|] == front;
    }
  }

  /** The path of the first `m` components. */
  function Above(path: Path, m: nat): (q: Path)
    requires 0 < m <= |Split(path)|
    ensures Split(q) == Split(path)[..m]
    decreases |path|
  {
    var n := LeafStart(path);
    if m == |Split(path)| then path
    else
      assert n > 0 && Split(path)[..m] == Split(path[..n - 1])[..m];
      Above(path[..n - 1], m)
  }

  lemma BlockedIs(fs: Inodes, top: Ino, t: Tree, path: Path)
    requires IsDir(fs, top) && Shows(fs, top, t) && path != []
    ensures Blocked(t, path) <==> ParentOf(fs, top, Split(path)).Err?
  {
    var names := Split(path);
    ParentBlocked(fs, top, names);
    if m :| 0 < m < |names| && Walk(fs, top, names[..m]).Some? && !IsDir(fs, Walk(fs, top, names[..m]).value) {
      var q := Above(path, m);
      UnderIsPrefix(path, q);
      WalkEndsInside(fs, top, Split(q));
      assert q in t;
    }
    if q :| q in t && Under(path, q) && !t[q].Directory? {
      UnderIsPrefix(path, q);
      assert Walk(fs, top, Split(q)).Some? && names[..|Split(q)|] == Split(q);
    }
  }

  lemma LookupIs(fs: Inodes, top: Ino, t: Tree, path: Path)
    requires IsDir(fs, top) && Shows(fs, top, t) && path != []
    ensures Lookup(t, path) == KindAt(fs, top, Split(path))
  {
    BlockedIs(fs, top, t, path);
    ParentIsWalk(fs, top, Split(path));
    DirectoryIs(fs, top, t, path);
  }

  lemma DirectoryIs(fs: Inodes, top: Ino, t: Tree, path: Path)
    requires Shows(fs, top, t)
    ensures IsDirectory(t, path) <==> LeadsToDir(fs, top, Split(path))
    ensures path in t <==> Walk(fs, top, Split(path)).Some?
    ensures path in t ==>
            Walk(fs, top, Split(path)).value in fs && t[path] == KindOf(fs[Walk(fs, top, Split(path)).value])
  {
  }

  lemma ChildSpelled(k: Path, path: Path)
    requires Under(k, path)
    ensures k == path + ['/' as int] + k[|path| + 1..]
  {
  }

  lemma ChildIs(k: Path, path: Path)
    requires IsChild(k, path)
    ensures k == path + [SLASH] + k[|path| + 1..] && Split(k) == Split(path) + [k[|path| + 1..]]
  {
    ChildSpelled(k, path);
    SplitChild(path, k[|path| + 1..]);
  }

  lemma NameIsChild(path: Path, name: Name)
    ensures IsChild(path + [SLASH] + name, path) && (path + [SLASH] + name)[|path| + 1..] == name
  {
  }

  lemma ChildInView(fs: Inodes, top: Ino, t: Tree, path: Path, d: Ino, name: Name)
    requires Shows(fs, top, t) && Walk(fs, top, Split(path)) == Some(d)
    ensures var k := path + [SLASH] + name;
            && (k in t <==> HasEntry(fs, d, name)) && (k in t ==> t[k] == KindOf(fs[At(fs, d, name)]))
  {
    SplitChild(path, name);
    OneStepMore(fs, top, Split(path), name);
    DirectoryIs(fs, top, t, path + [SLASH] + name);
  }

  /** What `read_dir` reports: each child once. */
  ghost predicate Lists(t: Tree, path: Path, listed: seq<Entry>) {
    && (forall e :: e in listed <==> e.relative in t && IsChild(e.relative, path) && t[e.relative] == e.kind)
    && (forall i, j :: 0 <= i < j < |listed| ==> listed[i].relative != listed[j].relative)
  }

  function Relative(path: Path, listed: seq<Listed>): (r: seq<Entry>)
    ensures |r| == |listed| && forall i :: 0 <= i < |r| ==>
            r[i] == Entry(path + [SLASH] + listed[i].name, listed[i].kind)
  {
    seq(|listed|, i requires 0 <= i < |listed| => Entry(path + [SLASH] + listed[i].name, listed[i].kind))
  }

  lemma RelativeLists(fs: Inodes, top: Ino, t: Tree, path: Path, d: Ino, listed: seq<Listed>)
    requires Shows(fs, top, t) && Walk(fs, top, Split(path)) == Some(d) && ListsAll(fs, d, listed)
    ensures Lists(t, path, Relative(path, listed))
  {
    var r := Relative(path, listed);
    forall e ensures e in r <==> e.relative in t && IsChild(e.relative, path) && t[e.relative] == e.kind {
      if i :| 0 <= i < |r| && r[i] == e {
        NameIsChild(path, listed[i].name);
        ChildInView(fs, top, t, path, d, listed[i].name);
        assert listed[i] in listed;
      }
      if e.relative in t && IsChild(e.relative, path) && t[e.relative] == e.kind {
        var name := e.relative[|path| + 1..];
        ChildIs(e.relative, path);
        ChildInView(fs, top, t, path, d, name);
        assert Listed(name, e.kind) in listed;
        var i :| 0 <= i < |listed| && listed[i] == Listed(name, e.kind);
        assert r[i] == e;
      }
    }
    forall i, j | 0 <= i < j < |r| ensures r[i].relative != r[j].relative {
      NameIsChild(path, listed[i].name);
      NameIsChild(path, listed[j].name);
    }
  }

  lemma EmptyIs(fs: Inodes, rank: Ino -> nat, top: Ino, t: Tree, path: Path, d: Ino)
    requires Sane(fs, rank) && Shows(fs, top, t) && Closed(t) && Walk(fs, top, Split(path)) == Some(d) && IsDir(fs, d)
    ensures IsEmpty(t, path) <==> fs[d].entries == map[]
  {
    if n :| n in fs[d].entries {
      ChildInView(fs, top, t, path, d, n);
      NameIsChild(path, n);
    }
    if k :| k in t && Under(k, path) {
      HangsThroughChild(t, k, path);
      var child :| child in t && IsChild(child, path);
      ChildIs(child, path);
      ChildInView(fs, top, t, path, d, child[|path| + 1..]);
    }
  }

  // ---------------------------------------------------------------- operations

  /** A root that nobody redirects, and the tree it shows. If it is open, its name may be bound anew between any two
      operations; if it goes by its name, that name stays bound. */
  class Root {
    const disk: Disk
    const authority: Authority
    ghost const top: Ino
    ghost var entries: Tree

    ghost predicate Valid()
      reads this, disk
    {
      && disk.Valid() && disk.RootOf(authority) == Some(top) && Settled(authority, disk.bindings, disk.tick)
      && Shows(disk.inodes, top, entries) && Closed(entries)
    }

    constructor (disk: Disk, authority: Authority)
      requires disk.Valid() && disk.RootOf(authority).Some? && Settled(authority, disk.bindings, disk.tick)
      ensures Valid() && this.disk == disk && this.authority == authority && disk.RootOf(authority) == Some(top)
    {
      this.disk, this.authority := disk, authority;
      top := disk.RootOf(authority).value;
      entries := View(disk.inodes, disk.rank, disk.RootOf(authority).value);
      new;
      ViewShows(disk.inodes, disk.rank, top);
      ViewIsClosed(disk.inodes, disk.rank, top, entries);
    }

    /** `entry_kind`. */
    method EntryKind(path: Path) returns (r: Result<Option<Kind>>)
      requires Valid()
      ensures r == Lookup(entries, path)
      ensures r.Ok? && r.value.Some? ==> Finds(disk.inodes, top, path, r.value.value)
      ensures r == Ok(None) ==> Walk(disk.inodes, top, Split(path)).None?
    {
      if path == [] {
        return Err;
      }
      LookupIs(disk.inodes, top, entries, path);
      r := disk.EntryKind(disk.RootOf(authority).value, Split(path));
    }

    /** `read_dir`. */
    method ReadDir(path: Path) returns (r: Result<seq<Entry>>)
      requires Valid()
      ensures r.Ok? <==> IsDirectory(entries, path)
      ensures r.Ok? ==> Lists(entries, path, r.value)
      ensures r.Ok? ==> forall e :: e in r.value ==> Finds(disk.inodes, top, e.relative, e.kind)
    {
      DirectoryIs(disk.inodes, top, entries, path);
      var listed := disk.ReadDir(disk.RootOf(authority).value, Split(path));
      if listed.Err? {
        return Err;
      }
      RelativeLists(disk.inodes, top, entries, path, Walk(disk.inodes, top, Split(path)).value, listed.value);
      return Ok(Relative(path, listed.value));
    }

    /** `directory_is_empty`. */
    method DirectoryIsEmpty(path: Path) returns (r: Result<bool>)
      requires Valid()
      ensures r == if !IsDirectory(entries, path) then Err else Ok(IsEmpty(entries, path))
    {
      var listed := ReadDir(path);
      if listed.Err? {
        return Err;
      }
      forall k | k in entries && Under(k, path) ensures listed.value != [] {
        HangsThroughChild(entries, k, path);
        var child :| child in entries && IsChild(child, path);
        assert Entry(child, entries[child]) in listed.value;
      }
      if listed.value != [] {
        assert listed.value[0] in listed.value;
      }
      return Ok(listed.value == []);
    }

    /** `remove_file`: anything but a directory; a link goes, its target does not. */
    method RemoveFile(path: Path) returns (ok: bool)
      requires Valid()
      modifies this, disk
      ensures Valid()
      ensures ok <==> path in old(entries) && !old(entries)[path].Directory?
      ensures entries == if ok then Without(old(entries), path) else old(entries)
      ensures disk.inodes == if ok then Detached(old(disk.inodes), top, Split(path)) else old(disk.inodes)
    {
      DirectoryIs(disk.inodes, top, entries, path);
      ok := disk.Remove(authority, Split(path), false);
      RootStays(old(disk.inodes), disk.inodes, authority, disk.bindings, old(disk.tick), disk.tick);
      if ok {
        ViewOfDetached(old(disk.inodes), disk.rank, top, entries, path);
        WithoutIsClosed(entries, path);
        entries := Without(entries, path);
      }
    }

    /** `remove_dir`: an empty directory. */
    method RemoveDir(path: Path) returns (ok: bool)
      requires Valid()
      modifies this, disk
      ensures Valid()
      ensures ok <==> IsDirectory(old(entries), path) && IsEmpty(old(entries), path)
      ensures entries == if ok then Without(old(entries), path) else old(entries)
      ensures disk.inodes == if ok then Detached(old(disk.inodes), top, Split(path)) else old(disk.inodes)
    {
      DirectoryIs(disk.inodes, top, entries, path);
      if IsDirectory(entries, path) {
        EmptyIs(disk.inodes, disk.rank, top, entries, path, Walk(disk.inodes, top, Split(path)).value);
      }
      ok := disk.Remove(authority, Split(path), true);
      RootStays(old(disk.inodes), disk.inodes, authority, disk.bindings, old(disk.tick), disk.tick);
      if ok {
        ViewOfDetached(old(disk.inodes), disk.rank, top, entries, path);
        WithoutIsClosed(entries, path);
        entries := Without(entries, path);
      }
    }

    /** `remove_dir_all`. */
    method RemoveDirAll(path: Path) returns (ok: bool)
      requires Valid()
      modifies this, disk
      ensures Valid()
      ensures ok <==> IsDirectory(old(entries), path)
      ensures entries == if ok then Without(old(entries), path) else old(entries)
      ensures disk.inodes == if ok then Detached(old(disk.inodes), top, Split(path)) else old(disk.inodes)
    {
      DirectoryIs(disk.inodes, top, entries, path);
      ok := disk.RemoveDirAll(authority, Split(path));
      RootStays(old(disk.inodes), disk.inodes, authority, disk.bindings, old(disk.tick), disk.tick);
      if ok {
        ViewOfDetached(old(disk.inodes), disk.rank, top, entries, path);
        WithoutIsClosed(entries, path);
        entries := Without(entries, path);
      }
    }
  }

  // ---------------------------------------------------------------- subtrees

  ghost function Subtree(t: Tree, path: Path): set<Path> {
    set k | k in t && AtOrUnder(k, path)
  }

  lemma SubtreeShrinks(before: Tree, t: Tree, path: Path, child: Path)
    requires path in before && Under(child, path) && forall k :: k in t ==> k in before
    ensures Subtree(t, child) < Subtree(before, path)
  {
    forall k | k in Subtree(t, child) ensures k in Subtree(before, path) {
      if k != child {
        UnderTransitive(k, child, path);
      }
    }
    assert path in Subtree(before, path) && path !in Subtree(t, child);
  }
}
