/** What the unbounded listing contains, and in which order, told without a queue or levels. */
module ListingMeaning {
  import opened Lexicographic
  import opened DirectoryListing

  // ---------------------------------------------------------------- which entries

  /** Neither `.` nor `..`, and no name with a leading dot unless hidden ones are asked for. */
  ghost predicate Visible(name: Name, o: Options) {
    && name != ['.' as int] && name != ['.' as int, '.' as int]
    && (name != [] && name[0] == '.' as int ==> o.includeHidden)
  }

  /** The kind tells what the node itself is: a link is never what it leads to, a file has its own size. */
  ghost predicate Tells(node: Node, kind: Kind) {
    match node
    case RegularFile(size) => kind.FileKind? && kind.size == size
    case Symlink(_) => kind.SymlinkKind?
    case Other => kind.OtherKind?
    case Directory(_) => kind.DirectoryKind?
  }

  /** The node a trail of names leads to, through directories only and listed names only. */
  ghost predicate Leads(node: Node, trail: seq<Name>, o: Options, found: Node)
    decreases |trail|
  {
    if trail == [] then found == node
    else
      && node.Directory? && Visible(trail[0], o)
      && (exists i :: 0 <= i < |node.children| && node.children[i].name == trail[0])
      && Leads(Lookup(node.children, trail[0]), trail[1..], o, found)
  }

  /** How deep a listing reaches. */
  function Reach(o: Options): nat {
    if o.recursive && o.maxDepth > 1 then o.maxDepth else 1
  }

  /** An entry that belongs under an item: some trail leads to its node, no deeper than allowed. */
  ghost predicate Belongs(item: Item, e: Entry, o: Options) {
    exists trail, found :: BelongsBy(item, e, o, trail, found)
  }

  ghost predicate BelongsBy(item: Item, e: Entry, o: Options, trail: seq<Name>, found: Node) {
    && trail != [] && Leads(item.dir, trail, o, found)
    && (|trail| == 1 || item.depth + |trail| <= Reach(o))
    && e == Entry(item.path + trail, item.depth + |trail|, e.kind) && Tells(found, e.kind)
  }

  lemma {:induction false} ListedNamesAre(children: seq<Child>, o: Options, name: Name)
    ensures name in ListedNames(children, o) <==>
            Listed(name, o) && exists i :: 0 <= i < |children| && children[i].name == name
  {
    if children != [] {
      var n := |children| - 1;
      ListedNamesAre(children[..n], o, name);
      assert forall i :: 0 <= i < n ==> children[..n][i] == children[i];
      if i :| 0 <= i < |children| && children[i].name == name {
        assert i < n ==> children[..n][i].name == name;
      }
    }
  }

  lemma SortedChildrenAre(dir: Dir, o: Options, child: Child)
    ensures child in SortedChildren(dir, o) <==>
            Leads(dir, [child.name], o, child.node)
  {
    var names := ListedNames(dir.children, o);
    ListedNamesAre(dir.children, o, child.name);
    SortContents(names);
    assert child.name in Sort(names) <==> child.name in multiset(Sort(names));
    assert child.name in names <==> child.name in multiset(names);
    var sorted := SortedChildren(dir, o);
    if child.name in Sort(names) {
      var i :| 0 <= i < |names| && Sort(names)[i] == child.name;
      assert sorted[i] == Child(child.name, Lookup(dir.children, child.name));
    }
    assert [child.name][1..] == [];
  }

  function Below(item: Item, child: Child): Item
    requires child.node.Directory?
  {
    Item(child.node, item.path + [child.name], item.depth + 1)
  }

  lemma {:induction false} ShownAre(item: Item, children: seq<Child>, e: Entry)
    ensures e in Shown(item, children) <==> exists child :: child in children && e == EntryOf(item, child)
  {
    if children != [] {
      var n := |children| - 1;
      ShownAre(item, children[..n], e);
      assert forall child :: child in children <==> child in children[..n] || child == children[n];
    }
  }

  lemma {:induction false} DeeperAre(item: Item, children: seq<Child>, o: Options, next: Item)
    ensures next in Deeper(item, children, o) <==>
            exists child :: child in children && Descends(item, child, o) && next == Below(item, child)
  {
    if children != [] {
      var n := |children| - 1;
      DeeperAre(item, children[..n], o, next);
      assert forall child :: child in children <==> child in children[..n] || child == children[n];
    }
  }

  lemma {:induction false} AllAre(items: seq<Item>, o: Options, e: Entry, next: Item)
    ensures e in ShownAll(items, o) <==>
            exists item :: item in items && e in Shown(item, SortedChildren(item.dir, o))
    ensures next in DeeperAll(items, o) <==>
            exists item :: item in items && next in Deeper(item, SortedChildren(item.dir, o), o)
  {
    if items != [] {
      AllAre(items[1..], o, e, next);
      assert forall item :: item in items <==> item == items[0] || item in items[1..];
    }
  }

  lemma BelongsDirectly(item: Item, e: Entry, o: Options)
    requires e in Shown(item, SortedChildren(item.dir, o))
    ensures Belongs(item, e, o)
  {
    ShownAre(item, SortedChildren(item.dir, o), e);
    var child :| child in SortedChildren(item.dir, o) && e == EntryOf(item, child);
    SortedChildrenAre(item.dir, o, child);
    assert BelongsBy(item, e, o, [child.name], child.node);
  }

  lemma TrailThrough(item: Item, child: Child, e: Entry, o: Options, trail: seq<Name>, found: Node)
    requires Leads(item.dir, [child.name], o, child.node) && Descends(item, child, o)
    requires child.node.Directory? && BelongsBy(Below(item, child), e, o, trail, found)
    ensures BelongsBy(item, e, o, [child.name] + trail, found)
  {
    var whole := [child.name] + trail;
    assert [child.name][1..] == [] && whole[1..] == trail;
    assert item.path + whole == item.path + [child.name] + trail;
  }

  lemma BelongsBelow(item: Item, next: Item, e: Entry, o: Options)
    requires next in Deeper(item, SortedChildren(item.dir, o), o) && Belongs(next, e, o)
    ensures Belongs(item, e, o)
  {
    DeeperAre(item, SortedChildren(item.dir, o), o, next);
    var child :| child in SortedChildren(item.dir, o) && Descends(item, child, o) && next == Below(item, child);
    SortedChildrenAre(item.dir, o, child);
    var trail, found :| BelongsBy(next, e, o, trail, found);
    TrailThrough(item, child, e, o, trail, found);
  }

  lemma BelongsSomewhere(item: Item, e: Entry, o: Options, trail: seq<Name>, found: Node)
    requires BelongsBy(item, e, o, trail, found)
    ensures |trail| == 1 ==> e in Shown(item, SortedChildren(item.dir, o))
    ensures |trail| > 1 ==>
              exists next :: next in Deeper(item, SortedChildren(item.dir, o), o) && Belongs(next, e, o)
  {
    var child := Child(trail[0], Lookup(item.dir.children, trail[0]));
    assert Leads(child.node, trail[1..], o, found);
    assert [trail[0]][1..] == [] && Leads(child.node, [], o, child.node);
    assert Leads(item.dir, [trail[0]], o, child.node);
    SortedChildrenAre(item.dir, o, child);
    if |trail| == 1 {
      assert trail == [trail[0]] && trail[1..] == [];
      assert e == EntryOf(item, child);
      ShownAre(item, SortedChildren(item.dir, o), e);
    } else {
      assert child.node.Directory?;
      var next := Below(item, child);
      DeeperAre(item, SortedChildren(item.dir, o), o, next);
      assert item.path + trail == next.path + trail[1..];
      assert BelongsBy(next, e, o, trail[1..], found);
    }
  }

  /** The unbounded listing holds exactly the entries some trail of listed names leads to, through real
      directories only (so nothing below a symbolic link) and no deeper than the depth allows. */
  lemma {:induction false} ListingHolds(items: seq<Item>, o: Options, e: Entry)
    ensures e in LevelOrder(items, o) <==> exists item :: item in items && Belongs(item, e, o)
    decreases TotalWeight(items)
  {
    if items != [] {
      DeeperAllShrinks(items, o);
      var below := DeeperAll(items, o);
      ListingHolds(below, o, e);
      if e in ShownAll(items, o) {
        AllAre(items, o, e, items[0]);
        var item :| item in items && e in Shown(item, SortedChildren(item.dir, o));
        BelongsDirectly(item, e, o);
      } else if e in LevelOrder(below, o) {
        var next :| next in below && Belongs(next, e, o);
        AllAre(items, o, e, next);
        var item :| item in items && next in Deeper(item, SortedChildren(item.dir, o), o);
        BelongsBelow(item, next, e, o);
      }
      if item :| item in items && Belongs(item, e, o) {
        var trail, found :| BelongsBy(item, e, o, trail, found);
        BelongsSomewhere(item, e, o, trail, found);
        if |trail| == 1 {
          AllAre(items, o, e, items[0]);
        } else {
          var next :| next in Deeper(item, SortedChildren(item.dir, o), o) && Belongs(next, e, o);
          AllAre(items, o, e, next);
        }
      }
    }
  }

  // ---------------------------------------------------------------- in which order

  /** Paths compared component by component, each component in byte order. */
  predicate PathLess(a: seq<Name>, b: seq<Name>) {
    b != [] && (a == [] || Less(a[0], b[0]) || (a[0] == b[0] && PathLess(a[1..], b[1..])))
  }

  predicate Before(a: Entry, b: Entry) {
    a.depth < b.depth || (a.depth == b.depth && PathLess(a.path, b.path))
  }

  ghost predicate InOrder(entries: seq<Entry>) {
    forall i, j :: 0 <= i < j < |entries| ==> Before(entries[i], entries[j])
  }

  ghost predicate NoRepeats(names: seq<Name>) {
    forall i, j :: 0 <= i < j < |names| ==> names[i] != names[j]
  }

  function Names(children: seq<Child>): seq<Name> {
    seq(|children|, i requires 0 <= i < |children| => children[i].name)
  }

  /** A directory tree as a filesystem keeps it: no name twice in one directory. */
  ghost predicate WellNamed(node: Node) {
    node.Directory? ==>
      NoRepeats(Names(node.children)) && forall child :: child in node.children ==> WellNamed(child.node)
  }

  lemma {:induction false} PathLessExtends(a: seq<Name>, b: seq<Name>, x: Name, y: Name)
    requires |a| == |b|
    ensures PathLess(a, b) ==> PathLess(a + [x], b + [y])
    ensures a == b && Less(x, y) ==> PathLess(a + [x], b + [y])
  {
    if a != [] {
      PathLessExtends(a[1..], b[1..], x, y);
      assert (a + [x])[1..] == a[1..] + [x] && (b + [y])[1..] == b[1..] + [y];
    }
  }

  lemma {:induction false} NoRepeatsCounts(names: seq<Name>, x: Name)
    requires NoRepeats(names)
    ensures multiset(names)[x] <= 1
  {
    if names != [] {
      var n := |names| - 1;
      NoRepeatsCounts(names[..n], x);
      assert names == names[..n] + [names[n]];
      if x == names[n] {
        assert x !in names[..n];
      }
    }
  }

  lemma RepeatCounts(names: seq<Name>, i: nat, j: nat)
    requires i < j < |names| && names[i] == names[j]
    ensures multiset(names)[names[i]] >= 2
  {
    assert names == names[..j] + names[j..];
    assert names[..j][i] == names[i] && names[j..][0] == names[i];
    assert names[i] in multiset(names[..j]) && names[i] in multiset(names[j..]);
  }

  lemma {:induction false} ListedNoRepeats(children: seq<Child>, o: Options)
    requires NoRepeats(Names(children))
    ensures NoRepeats(ListedNames(children, o))
  {
    if children != [] {
      var n := |children| - 1;
      assert Names(children)[..n] == Names(children[..n]);
      ListedNoRepeats(children[..n], o);
      ListedNamesAre(children[..n], o, children[n].name);
      assert forall i :: 0 <= i < n ==> children[..n][i].name == Names(children)[i] != Names(children)[n];
    }
  }

  lemma SortedStrictly(children: seq<Child>, o: Options, i: nat, j: nat)
    requires NoRepeats(Names(children)) && i < j < |ListedNames(children, o)|
    ensures Less(Sort(ListedNames(children, o))[i], Sort(ListedNames(children, o))[j])
  {
    var names := ListedNames(children, o);
    var sorted := Sort(names);
    SortSorted(names);
    SortContents(names);
    ListedNoRepeats(children, o);
    if sorted[i] == sorted[j] {
      RepeatCounts(sorted, i, j);
      NoRepeatsCounts(names, sorted[i]);
    }
    Total(sorted[i], sorted[j]);
  }

  lemma {:induction false} ShownAt(item: Item, children: seq<Child>, i: nat)
    requires i < |children|
    ensures Shown(item, children)[i] == EntryOf(item, children[i])
  {
    if i < |children| - 1 {
      ShownAt(item, children[..|children| - 1], i);
    }
  }

  /** Items of one level: same depth, same path length, paths increasing, trees well named. */
  ghost predicate Level(items: seq<Item>, depth: nat, length: nat) {
    && (forall i :: 0 <= i < |items| ==>
        items[i].depth == depth && |items[i].path| == length && WellNamed(items[i].dir))
    && (forall i, j :: 0 <= i < j < |items| ==> PathLess(items[i].path, items[j].path))
  }

  lemma ShownInOrder(item: Item, o: Options)
    requires WellNamed(item.dir)
    ensures InOrder(Shown(item, SortedChildren(item.dir, o)))
  {
    var children := SortedChildren(item.dir, o);
    var shown := Shown(item, children);
    forall i, j | 0 <= i < j < |shown| ensures Before(shown[i], shown[j]) {
      ShownAt(item, children, i);
      ShownAt(item, children, j);
      SortedStrictly(item.dir.children, o, i, j);
      PathLessExtends(item.path, item.path, children[i].name, children[j].name);
    }
  }

  /** Every entry shown for a level extends the path of one of its items by one name. */
  lemma {:induction false} ShownExtends(items: seq<Item>, o: Options, e: Entry)
    requires e in ShownAll(items, o)
    ensures exists i, x: Name :: 0 <= i < |items| && e.path == items[i].path + [x] && e.depth == items[i].depth + 1
  {
    var first := Shown(items[0], SortedChildren(items[0].dir, o));
    if e in first {
      ShownAre(items[0], SortedChildren(items[0].dir, o), e);
      var child :| child in SortedChildren(items[0].dir, o) && e == EntryOf(items[0], child);
      assert e.path == items[0].path + [child.name];
    } else {
      ShownExtends(items[1..], o, e);
      var i, x: Name :| 0 <= i < |items[1..]| && e.path == items[1..][i].path + [x]
        && e.depth == items[1..][i].depth + 1;
      assert items[1..][i] == items[i + 1];
    }
  }

  lemma InOrderConcat(a: seq<Entry>, b: seq<Entry>)
    requires InOrder(a) && InOrder(b)
    requires forall x, y :: x in a && y in b ==> Before(x, y)
    ensures InOrder(a + b)
  {
  }

  lemma {:induction false} LevelInOrder(items: seq<Item>, o: Options, depth: nat, length: nat)
    requires Level(items, depth, length)
    ensures InOrder(ShownAll(items, o))
  {
    if items != [] {
      var item, rest := items[0], items[1..];
      var first := Shown(item, SortedChildren(item.dir, o));
      assert forall i :: 0 <= i < |rest| ==> rest[i] == items[i + 1];
      LevelInOrder(rest, o, depth, length);
      ShownInOrder(item, o);
      forall x, y | x in first && y in ShownAll(rest, o) ensures Before(x, y) {
        ShownAre(item, SortedChildren(item.dir, o), x);
        var child :| child in SortedChildren(item.dir, o) && x == EntryOf(item, child);
        ShownExtends(rest, o, y);
        var i, name: Name :| 0 <= i < |rest| && y.path == rest[i].path + [name] && y.depth == rest[i].depth + 1;
        PathLessExtends(item.path, rest[i].path, child.name, name);
      }
      InOrderConcat(first, ShownAll(rest, o));
    }
  }

  ghost predicate Increasing(children: seq<Child>) {
    && (forall i :: 0 <= i < |children| ==> WellNamed(children[i].node))
    && (forall i, j :: 0 <= i < j < |children| ==> Less(children[i].name, children[j].name))
  }

  lemma {:induction false} LookupWellNamed(children: seq<Child>, name: Name)
    requires forall child :: child in children ==> WellNamed(child.node)
    ensures WellNamed(Lookup(children, name))
  {
    if children != [] {
      assert children[0] in children;
      LookupWellNamed(children[1..], name);
    }
  }

  lemma SortedIncreasing(dir: Dir, o: Options)
    requires WellNamed(dir)
    ensures Increasing(SortedChildren(dir, o))
  {
    var children := SortedChildren(dir, o);
    forall i | 0 <= i < |children| ensures WellNamed(children[i].node) {
      LookupWellNamed(dir.children, children[i].name);
    }
    forall i, j | 0 <= i < j < |children| ensures Less(children[i].name, children[j].name) {
      SortedStrictly(dir.children, o, i, j);
    }
  }

  lemma {:induction false} DeeperIsLevel(item: Item, children: seq<Child>, o: Options)
    requires Increasing(children)
    ensures Level(Deeper(item, children, o), item.depth + 1, |item.path| + 1)
  {
    if children != [] {
      var n := |children| - 1;
      DeeperIsLevel(item, children[..n], o);
      var front := Deeper(item, children[..n], o);
      forall i | 0 <= i < |front| ensures PathLess(front[i].path, item.path + [children[n].name]) {
        DeeperAre(item, children[..n], o, front[i]);
        var child :| child in children[..n] && Descends(item, child, o) && front[i] == Below(item, child);
        PathLessExtends(item.path, item.path, child.name, children[n].name);
      }
    }
  }

  lemma {:induction false} DeeperExtends(items: seq<Item>, o: Options, next: Item)
    requires next in DeeperAll(items, o)
    ensures exists i, x: Name :: 0 <= i < |items| && next.path == items[i].path + [x]
  {
    var first := Deeper(items[0], SortedChildren(items[0].dir, o), o);
    if next in first {
      DeeperAre(items[0], SortedChildren(items[0].dir, o), o, next);
      var child :| child in SortedChildren(items[0].dir, o) && Descends(items[0], child, o)
        && next == Below(items[0], child);
      assert next.path == items[0].path + [child.name];
    } else {
      DeeperExtends(items[1..], o, next);
      var i, x: Name :| 0 <= i < |items[1..]| && next.path == items[1..][i].path + [x];
      assert items[1..][i] == items[i + 1];
    }
  }

  lemma LevelConcat(a: seq<Item>, b: seq<Item>, depth: nat, length: nat)
    requires Level(a, depth, length) && Level(b, depth, length)
    requires forall x, y :: x in a && y in b ==> PathLess(x.path, y.path)
    ensures Level(a + b, depth, length)
  {
  }

  lemma {:induction false} NextLevel(items: seq<Item>, o: Options, depth: nat, length: nat)
    requires Level(items, depth, length)
    ensures Level(DeeperAll(items, o), depth + 1, length + 1)
  {
    if items != [] {
      var item, rest := items[0], items[1..];
      var first := Deeper(item, SortedChildren(item.dir, o), o);
      assert forall i :: 0 <= i < |rest| ==> rest[i] == items[i + 1];
      NextLevel(rest, o, depth, length);
      SortedIncreasing(item.dir, o);
      DeeperIsLevel(item, SortedChildren(item.dir, o), o);
      forall x, y | x in first && y in DeeperAll(rest, o) ensures PathLess(x.path, y.path) {
        DeeperExtends([item], o, x) by { assert DeeperAll([item], o) == first + DeeperAll([item][1..], o); }
        var k, name: Name :| 0 <= k < |[item]| && x.path == [item][k].path + [name];
        DeeperExtends(rest, o, y);
        var i, other: Name :| 0 <= i < |rest| && y.path == rest[i].path + [other];
        PathLessExtends(item.path, rest[i].path, name, other);
      }
      LevelConcat(first, DeeperAll(rest, o), depth + 1, length + 1);
    }
  }

  lemma {:induction false} DepthsBelow(items: seq<Item>, o: Options, e: Entry, depth: nat, length: nat)
    requires Level(items, depth, length) && e in LevelOrder(items, o)
    ensures e.depth > depth
  {
    ListingHolds(items, o, e);
    var item :| item in items && Belongs(item, e, o);
    var trail, found :| BelongsBy(item, e, o, trail, found);
  }

  lemma {:induction false} LevelsInOrder(items: seq<Item>, o: Options, depth: nat, length: nat)
    requires Level(items, depth, length)
    ensures InOrder(LevelOrder(items, o))
    decreases TotalWeight(items)
  {
    if items != [] {
      DeeperAllShrinks(items, o);
      var below := DeeperAll(items, o);
      NextLevel(items, o, depth, length);
      LevelsInOrder(below, o, depth + 1, length + 1);
      LevelInOrder(items, o, depth, length);
      forall x, y | x in ShownAll(items, o) && y in LevelOrder(below, o) ensures Before(x, y) {
        ShownExtends(items, o, x);
        DepthsBelow(below, o, y, depth + 1, length + 1);
      }
      InOrderConcat(ShownAll(items, o), LevelOrder(below, o));
    }
  }

  lemma {:induction false} PathAsymmetric(a: seq<Name>, b: seq<Name>)
    requires PathLess(a, b)
    ensures a != b && !PathLess(b, a)
  {
    if a != [] {
      if Less(a[0], b[0]) {
        Asymmetric(a[0], b[0]);
      } else {
        Irreflexive(a[0]);
        PathAsymmetric(a[1..], b[1..]);
      }
    }
  }

  lemma BeforeAsymmetric(a: Entry, b: Entry)
    requires Before(a, b)
    ensures a != b && !Before(b, a)
  {
    if a.depth == b.depth {
      PathAsymmetric(a.path, b.path);
    }
  }

  lemma LastIsLatest(entries: seq<Entry>, e: Entry)
    requires InOrder(entries) && e in entries
    ensures e == entries[|entries| - 1] || Before(e, entries[|entries| - 1])
  {
  }

  lemma LastIsNew(entries: seq<Entry>)
    requires InOrder(entries) && entries != []
    ensures entries[|entries| - 1] !in entries[..|entries| - 1]
  {
    var last := entries[|entries| - 1];
    if i :| 0 <= i < |entries| - 1 && entries[i] == last {
      BeforeAsymmetric(entries[i], last);
    }
  }

  lemma SameWithout(a: seq<Entry>, b: seq<Entry>, x: Entry)
    requires x !in a && x !in b && forall e :: e in a + [x] <==> e in b + [x]
    ensures forall e :: e in a <==> e in b
  {
    forall e ensures e in a <==> e in b {
      assert e in a + [x] <==> e in b + [x];
    }
  }

  /** There is one way to list a set of entries in order. */
  lemma {:induction false} InOrderUnique(a: seq<Entry>, b: seq<Entry>)
    requires InOrder(a) && InOrder(b) && forall e :: e in a <==> e in b
    ensures a == b
  {
    assert (a != [] ==> a[0] in b) && (b != [] ==> b[0] in a);
    if a != [] && b != [] {
      var x, y := a[|a| - 1], b[|b| - 1];
      LastIsLatest(a, y);
      LastIsLatest(b, x);
      if x != y {
        BeforeAsymmetric(x, y);
      }
      var front, rest := a[..|a| - 1], b[..|b| - 1];
      LastIsNew(a);
      LastIsNew(b);
      assert a == front + [x] && b == rest + [y];
      SameWithout(front, rest, x);
      InOrderUnique(front, rest);
    }
  }

  /** The unbounded listing of one directory: exactly the reachable listed entries, each once, by depth and
      then by path in byte order; and nothing else is such a listing. */
  lemma ListingIsDetermined(target: Dir, path: seq<Name>, o: Options, listing: seq<Entry>)
    requires WellNamed(target)
    ensures listing == LevelOrder([Item(target, path, 0)], o) <==>
            (forall e :: e in listing <==> Belongs(Item(target, path, 0), e, o)) && InOrder(listing)
  {
    var root := Item(target, path, 0);
    var all := LevelOrder([root], o);
    forall e ensures e in all <==> Belongs(root, e, o) {
      ListingHolds([root], o, e);
    }
    LevelsInOrder([root], o, 0, |path|);
    if (forall e :: e in listing <==> Belongs(root, e, o)) && InOrder(listing) {
      InOrderUnique(listing, all);
    }
  }

  lemma {:induction false} LeadsThroughDirectories(node: Node, trail: seq<Name>, o: Options, found: Node, k: nat)
    requires Leads(node, trail, o, found) && k < |trail|
    ensures exists between: Node :: Leads(node, trail[..k], o, between) && between.Directory?
    decreases k
  {
    if k == 0 {
      assert Leads(node, [], o, node);
    } else {
      var next := Lookup(node.children, trail[0]);
      LeadsThroughDirectories(next, trail[1..], o, found, k - 1);
      var between: Node :| Leads(next, trail[1..][..k - 1], o, between) && between.Directory?;
      assert trail[..k][1..] == trail[1..][..k - 1];
      assert Leads(node, trail[..k], o, between);
    }
  }

  /** Nothing is listed below a link: every name on the way to an entry leads to a real directory, although a
      link may lead to one as well. */
  lemma NothingBelowLinks(target: Dir, path: seq<Name>, o: Options, e: Entry, k: nat)
    requires e in LevelOrder([Item(target, path, 0)], o) && |path| <= k < |e.path|
    ensures path <= e.path
    ensures exists between: Node :: Leads(target, e.path[|path|..k], o, between) && between.Directory?
  {
    ListingHolds([Item(target, path, 0)], o, e);
    var trail, found :| BelongsBy(Item(target, path, 0), e, o, trail, found);
    LeadsThroughDirectories(target, trail, o, found, k - |path|);
    assert e.path == path + trail;
    assert e.path[|path|..k] == trail[..k - |path|];
  }
}
