/** The descriptor-relative operations of `fs/rooted.rs` on a disk that changes in place. */
module Disks {
  import opened Options
  import opened Lexicographic
  import opened Inodes
  import opened DiskSpec
  import opened Removals

  class Disk {
    var inodes: Inodes
    /** What the names of roots lead to, by the number of operations started. */
    const bindings: Bindings
    var tick: nat
    ghost const rank: Ino -> nat

    constructor (inodes: Inodes, bindings: Bindings, ghost rank: Ino -> nat)
      requires Sane(inodes, rank)
      ensures Valid() && this.inodes == inodes && this.bindings == bindings && tick == 0 && this.rank == rank
    {
      this.inodes, this.bindings, this.tick, this.rank := inodes, bindings, 0, rank;
    }

    ghost predicate Valid()
      reads this
    {
      Sane(inodes, rank)
    }

    function RootOf(authority: Authority): Option<Ino>
      reads this
    {
      RootAt(inodes, authority, bindings, tick)
    }

    /** Open the root for one operation. A named root is resolved anew each time. */
    method RootHandle(authority: Authority) returns (r: Option<Ino>)
      modifies this`tick
      ensures r == old(RootOf(authority)) && tick == old(tick) + 1
    {
      r := RootOf(authority);
      tick := tick + 1;
    }

    /** `openat` for a directory. Without `noFollow` a link would be followed. */
    method OpenAt(d: Ino, name: Name, noFollow: bool) returns (r: Option<Ino>)
      ensures noFollow ==>
                r == if HasEntry(inodes, d, name) && IsDir(inodes, At(inodes, d, name)) then Some(At(inodes, d, name))
                  else None
    {
      if !HasEntry(inodes, d, name) {
        return None;
      }
      var i := At(inodes, d, name);
      if !noFollow {
        i := Followed(inodes, d, i);
      }
      return if IsDir(inodes, i) then Some(i) else None;
    }

    /** `open_parent`. */
    method OpenParent(root: Ino, path: seq<Name>) returns (r: Result<Option<Ino>>)
      ensures r == ParentOf(inodes, root, path)
    {
      if path == [] {
        return Err;
      }
      var current := root;
      assert |path[..1]| == 1;
      for i := 0 to |path| - 1
        invariant ParentOf(inodes, root, path[..i + 1]) == Ok(Some(current))
      {
        var next := OpenAt(current, path[i], true);
        ParentStep(path, i + 1);
        if next.None? {
          ParentStops(inodes, root, path, i + 2);
          return if HasEntry(inodes, current, path[i]) then Err else Ok(None);
        }
        current := next.value;
      }
      assert path[..|path|] == path;
      return Ok(Some(current));
    }

    /** `unlink_at`, for a file or, with the flag, for an empty directory. */
    method UnlinkAt(root: Ino, path: seq<Name>, removeDir: bool) returns (ok: bool)
      requires Valid() && IsDir(inodes, root)
      modifies this`inodes
      ensures Valid()
      ensures ok <==> path != [] && Removable(old(inodes), Walk(old(inodes), root, path), removeDir)
      ensures inodes == if ok then Detached(old(inodes), root, path) else old(inodes)
    {
      var parent := OpenParent(root, path);
      if path != [] {
        ParentIsWalk(inodes, root, path);
      }
      if parent.Err? || parent.value.None? {
        return false;
      }
      var p, leaf := parent.value.value, path[|path| - 1];
      if !HasEntry(inodes, p, leaf) || !Removable(inodes, Some(At(inodes, p, leaf)), removeDir) {
        return false;
      }
      LeafIsDetached(inodes, rank, root, path, p, At(inodes, p, leaf));
      DetachedIsSane(inodes, rank, Detached(inodes, root, path));
      inodes := inodes[p := Dir(inodes[p].entries - {leaf})];
      return true;
    }

    /** `list_names`: what `readdir` gives, in whatever order, sorted. */
    method ListNames(d: Ino) returns (names: seq<Text>)
      requires Valid() && IsDir(inodes, d)
      ensures names == OrderOf(inodes[d].entries.Keys)
    {
      names := [];
      var rest: set<Text> := inodes[d].entries.Keys;
      while rest != {}
        invariant rest <= inodes[d].entries.Keys
        invariant forall n :: n in names <==> n in inodes[d].entries.Keys - rest
        invariant forall i, j :: 0 <= i < j < |names| ==> names[i] != names[j]
        decreases rest
      {
        var n :| n in rest;
        names := names + [n];
        rest := rest - {n};
      }
      SortOrdered(names);
      OrderedUnique(Sort(names), OrderOf(inodes[d].entries.Keys));
      names := Sort(names);
    }

    /** `read_dir_anchored`: the entries by name, each with its own kind. */
    method ReadDir(root: Ino, path: seq<Name>) returns (r: Result<seq<Listed>>)
      requires Valid() && IsDir(inodes, root)
      ensures r.Ok? <==> path != [] && LeadsToDir(inodes, root, path)
      ensures r.Ok? ==> r.value == Listing(inodes, Walk(inodes, root, path).value)
    {
      var parent := OpenParent(root, path);
      if path != [] {
        ParentIsWalk(inodes, root, path);
      }
      if parent.Err? || parent.value.None? {
        return Err;
      }
      var leaf := OpenAt(parent.value.value, path[|path| - 1], true);
      if leaf.None? {
        return Err;
      }
      var names := ListNames(leaf.value);
      return Ok(ListedInOrder(inodes, leaf.value, AsNames(names)));
    }

    /** `entry_kind`: walk the parents, then inspect the last component without following it. */
    method EntryKind(root: Ino, path: seq<Name>) returns (r: Result<Option<Kind>>)
      ensures r == KindAt(inodes, root, path)
    {
      var parent := OpenParent(root, path);
      if parent.Err? {
        return Err;
      }
      if parent.value.None? || !HasEntry(inodes, parent.value.value, path[|path| - 1]) {
        return Ok(None);
      }
      return Ok(Some(KindOf(inodes[At(inodes, parent.value.value, path[|path| - 1])])));
    }

    /** `remove_file`, or `remove_dir` with the flag. */
    method Remove(authority: Authority, path: seq<Name>, removeDir: bool) returns (ok: bool)
      requires Valid()
      modifies this
      ensures Valid() && Shrunk(old(inodes), inodes)
      ensures Outcome(inodes, tick, ok) == UnlinkRun(old(inodes), authority, bindings, old(tick), path, removeDir)
    {
      UnlinkRunIsSane(inodes, rank, authority, bindings, tick, path, removeDir);
      var root := RootHandle(authority);
      if root.None? {
        return false;
      }
      ok := UnlinkAt(root.value, path, removeDir);
    }

    /** One turn of `remove_dir_all`: recurse into a directory, unlink anything else. */
    method RemoveEntry(authority: Authority, path: seq<Name>, entry: Listed) returns (ok: bool)
      requires Valid() && Shallow(inodes.Keys, rank, path)
      modifies this
      ensures Valid() && Shrunk(old(inodes), inodes)
      ensures Outcome(inodes, tick, ok) == EntryRun(old(inodes), rank, authority, bindings, old(tick), path, entry)
      decreases Levels(inodes.Keys, rank, |path|), 0, 0
    {
      if entry.kind.Directory? {
        ok := RemoveTree(authority, path + [entry.name]);
      } else {
        ok := Remove(authority, path + [entry.name], false);
      }
    }

    /** `remove_dir_all`, operation by operation. */
    method RemoveTree(authority: Authority, path: seq<Name>) returns (ok: bool)
      requires Valid()
      modifies this
      ensures Valid() && Shrunk(old(inodes), inodes)
      ensures Outcome(inodes, tick, ok) == RemoveRun(old(inodes), rank, authority, bindings, old(tick), path)
      decreases Levels(inodes.Keys, rank, |path|), 1, 0
    {
      ghost var fs := inodes;
      var root := RootHandle(authority);
      if root.None? {
        return false;
      }
      var listing := ReadDir(root.value, path);
      if listing.Err? {
        return false;
      }
      ok := RemoveListed(authority, path, listing.value, root.value);
      if ok {
        ghost var current := inodes;
        ok := Remove(authority, path, true);
        ShrunkTwice(fs, current, inodes);
      }
    }

    /** `remove_dir_all`: with a root that nobody redirects, exactly the subtree goes. */
    method RemoveDirAll(authority: Authority, path: seq<Name>) returns (ok: bool)
      requires Valid()
      modifies this
      ensures Valid() && Shrunk(old(inodes), inodes)
      ensures Outcome(inodes, tick, ok) == RemoveRun(old(inodes), rank, authority, bindings, old(tick), path)
      ensures Settled(authority, bindings, old(tick)) ==>
                Exact(old(inodes), old(RootOf(authority)), path, Outcome(inodes, tick, ok)) && tick >= old(tick)
    {
      if Settled(authority, bindings, tick) {
        RemoveRunIsExact(inodes, rank, authority, bindings, tick, path);
      }
      ok := RemoveTree(authority, path);
    }

    /** The loop over the listing. */
    method RemoveListed(authority: Authority, path: seq<Name>, listed: seq<Listed>, ghost root: Ino) returns (ok: bool)
      requires Valid() && IsDir(inodes, root) && LeadsToDir(inodes, root, path)
      modifies this
      ensures Valid() && Shrunk(old(inodes), inodes) && Shallow(old(inodes.Keys), rank, path)
      ensures Outcome(inodes, tick, ok) == EachRun(old(inodes), rank, authority, bindings, old(tick), path, listed)
      decreases Levels(inodes.Keys, rank, |path|), 0, 1
    {
      ghost var fs := inodes;
      PathIsShort(fs, rank, root, path, Walk(fs, root, path).value);
      ghost var all := EachRun(fs, rank, authority, bindings, tick, path, listed);
      assert listed[0..] == listed;
      for i := 0 to |listed|
        invariant Valid() && Shrunk(fs, inodes)
        invariant EachRun(inodes, rank, authority, bindings, tick, path, listed[i..]) == all
      {
        ghost var current := inodes;
        assert listed[i..][0] == listed[i] && listed[i..][1..] == listed[i + 1..];
        ok := RemoveEntry(authority, path, listed[i]);
        ShrunkTwice(fs, current, inodes);
        if !ok {
          return false;
        }
      }
      ok := true;
    }
  }
}
