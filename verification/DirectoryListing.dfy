/** The bounded recursive listing of `fs/directory.rs`: a queue of directories, each read through a bounded
    heap of names, stopped at the first directory that does not fit. */
module DirectoryListing {
  import opened Lexicographic

  type Name = Text

  const DOT: int := 46

  /** What a name leads to. A link carries what following it would lead to; a directory's children come in
      `readdir` order. */
  datatype Node = RegularFile(size: nat) | Symlink(target: Node) | Other | Directory(children: seq<Child>)

  type Dir = n: Node | n.Directory? witness Directory([])

  datatype Child = Child(name: Name, node: Node)

  datatype Kind = FileKind(size: nat) | SymlinkKind | OtherKind | DirectoryKind

  /** One listed entry; `path` is the display path, component by component. */
  datatype Entry = Entry(path: seq<Name>, depth: nat, kind: Kind)

  datatype Options = Options(includeHidden: bool, recursive: bool, maxDepth: nat)

  /** What `fstatat` without following links reports. */
  function KindOf(node: Node): Kind {
    match node
    case RegularFile(size) => FileKind(size)
    case Symlink(_) => SymlinkKind
    case Other => OtherKind
    case Directory(_) => DirectoryKind
  }

  function Take<T>(items: seq<T>, limit: nat): seq<T> {
    if limit <= |items| then items[..limit] else items
  }

  // ---------------------------------------------------------------- one directory

  /** `.` and `..` are always skipped, other dot names unless asked for. */
  predicate Listed(name: Name, o: Options) {
    name != [DOT] && name != [DOT, DOT] && (o.includeHidden || name == [] || name[0] != DOT)
  }

  function ListedNames(children: seq<Child>, o: Options): seq<Name> {
    if children == [] then [] else
    var front, last := ListedNames(children[..|children| - 1], o), children[|children| - 1].name;
    if Listed(last, o) then front + [last] else front
  }

  /** The entry a name denotes. */
  function Lookup(children: seq<Child>, name: Name): Node {
    if children == [] then Other
    else if children[0].name == name then children[0].node
    else Lookup(children[1..], name)
  }

  function Found(children: seq<Child>, names: seq<Name>): seq<Child> {
    seq(|names|, i requires 0 <= i < |names| => Child(names[i], Lookup(children, names[i])))
  }

  /** The listed children of a directory in byte order. */
  function SortedChildren(dir: Dir, o: Options): seq<Child>
  {
    Found(dir.children, Sort(ListedNames(dir.children, o)))
  }

  /** `retain_smallest`, the heap standing as the sorted sequence of what it holds. */
  function RetainSmallest(items: seq<Name>, value: Name, limit: nat): seq<Name> {
    if limit == 0 then items
    else if |items| < limit then Insert(items, value)
    else if Less(value, items[|items| - 1]) then Insert(items[..|items| - 1], value)
    else items
  }

  /** Retaining as names arrive is the same as keeping all and cutting at the end. */
  lemma {:induction false} RetainIsTake(items: seq<Name>, value: Name, limit: nat)
    requires Sorted(items) && limit > 0
    ensures RetainSmallest(Take(items, limit), value, limit) == Take(Insert(items, value), limit)
  {
    if |items| >= limit {
      var front, last := items[..|items| - 1], items[|items| - 1];
      if Less(value, last) {
        assert Take(Insert(items, value), limit) == Take(Insert(front, value), limit);
        if |items| == limit {
          assert items[..limit] == items && Insert(items, value)[..limit] == Insert(front, value);
        } else {
          assert front[..limit] == items[..limit];
          RetainIsTake(front, value, limit);
        }
      } else {
        LastIsGreatest(items, limit - 1);
        NotLessTransitive(value, last, items[limit - 1]);
        assert (items + [value])[..limit] == items[..limit];
      }
    }
  }

  /** `read_directory_entries` on a directory that keeps still. */
  method ReadDirectoryEntries(dir: Dir, o: Options, maxEntries: nat) returns (entries: seq<Child>, truncated: bool)
    ensures entries == Take(SortedChildren(dir, o), maxEntries)
    ensures truncated <==> |SortedChildren(dir, o)| > maxEntries
  {
    var names: seq<Name> := [];
    var retained := maxEntries + 1;
    assert dir.children[..0] == [];
    for i := 0 to |dir.children|
      invariant names == Take(Sort(ListedNames(dir.children[..i], o)), retained)
    {
      var name := dir.children[i].name;
      var before := ListedNames(dir.children[..i], o);
      assert dir.children[..i + 1][..i] == dir.children[..i];
      if Listed(name, o) {
        SortSorted(before);
        RetainIsTake(Sort(before), name, retained);
        assert (before + [name])[..|before|] == before;
        names := RetainSmallest(names, name, retained);
      }
    }
    assert dir.children[..|dir.children|] == dir.children;
    truncated := |names| > maxEntries;
    entries := Found(dir.children, Take(names, maxEntries));
  }

  // ---------------------------------------------------------------- the walk

  datatype Item = Item(dir: Dir, path: seq<Name>, depth: nat)

  function EntryOf(item: Item, child: Child): Entry {
    Entry(item.path + [child.name], item.depth + 1, KindOf(child.node))
  }

  predicate Descends(item: Item, child: Child, o: Options) {
    o.recursive && child.node.Directory? && item.depth + 1 < o.maxDepth
  }

  function Shown(item: Item, children: seq<Child>): (r: seq<Entry>)
    ensures |r| == |children|
  {
    if children == [] then []
    else Shown(item, children[..|children| - 1]) + [EntryOf(item, children[|children| - 1])]
  }

  function Deeper(item: Item, children: seq<Child>, o: Options): (r: seq<Item>)
    ensures |r| <= |children|
  {
    if children == [] then [] else
    var front, last := Deeper(item, children[..|children| - 1], o), children[|children| - 1];
    if Descends(item, last, o) then front + [Item(last.node, item.path + [last.name], item.depth + 1)] else front
  }

  /** A size that a directory's children, however often looked up, never reach together. */
  ghost function Weight(node: Node): nat {
    if node.Directory? then 1 + |node.children| * Heaviest(node.children) else 1
  }

  ghost function Heaviest(children: seq<Child>): nat {
    if children == [] then 0 else
    var rest := Heaviest(children[1..]);
    if Weight(children[0].node) > rest then Weight(children[0].node) else rest
  }

  ghost function TotalWeight(items: seq<Item>): nat {
    if items == [] then 0 else Weight(items[0].dir) + TotalWeight(items[1..])
  }

  lemma {:induction false} TotalWeightAppend(a: seq<Item>, b: seq<Item>)
    ensures TotalWeight(a + b) == TotalWeight(a) + TotalWeight(b)
  {
    if a == [] {
      assert a + b == b;
    } else {
      TotalWeightAppend(a[1..], b);
      assert (a + b)[1..] == a[1..] + b;
    }
  }

  lemma {:induction false} LookupWeight(children: seq<Child>, name: Name)
    requires Lookup(children, name).Directory?
    ensures Weight(Lookup(children, name)) <= Heaviest(children)
  {
    if children[0].name != name {
      LookupWeight(children[1..], name);
    }
  }

  lemma {:induction false} DeeperWeight(item: Item, children: seq<Child>, o: Options, bound: nat)
    requires forall i :: 0 <= i < |children| && children[i].node.Directory? ==> Weight(children[i].node) <= bound
    ensures TotalWeight(Deeper(item, children, o)) <= |children| * bound
  {
    if children != [] {
      var front, last := children[..|children| - 1], children[|children| - 1];
      DeeperWeight(item, front, o, bound);
      if Descends(item, last, o) {
        var next := Item(last.node, item.path + [last.name], item.depth + 1);
        TotalWeightAppend(Deeper(item, front, o), [next]);
        TotalWeightOfOne(next);
      }
      OneMoreTimes(|front|, bound);
    }
  }

  lemma TotalWeightOfOne(item: Item)
    ensures TotalWeight([item]) == Weight(item.dir)
  {
    assert [item][1..] == [];
  }

  lemma OneMoreTimes(n: nat, bound: nat)
    ensures (n + 1) * bound == n * bound + bound
  {
  }

  lemma {:induction false} ListedCount(children: seq<Child>, o: Options)
    ensures |ListedNames(children, o)| <= |children|
  {
    if children != [] {
      ListedCount(children[..|children| - 1], o);
    }
  }

  lemma ExpandShrinks(item: Item, o: Options)
    ensures TotalWeight(Deeper(item, SortedChildren(item.dir, o), o)) < Weight(item.dir)
  {
    var children, all := SortedChildren(item.dir, o), item.dir.children;
    forall i | 0 <= i < |children| && children[i].node.Directory? ensures Weight(children[i].node) <= Heaviest(all) {
      LookupWeight(all, children[i].name);
    }
    DeeperWeight(item, children, o, Heaviest(all));
    ListedCount(all, o);
    MulMonotone(|children|, |all|, Heaviest(all));
  }

  lemma MulMonotone(a: nat, b: nat, c: nat)
    requires a <= b
    ensures a * c <= b * c
  {
  }

  /** The queue, run to the end without a bound. */
  ghost function Walk(queue: seq<Item>, o: Options): seq<Entry>
    decreases TotalWeight(queue)
  {
    if queue == [] then [] else
    var children := SortedChildren(queue[0].dir, o);
    var rest := queue[1..] + Deeper(queue[0], children, o);
    ExpandShrinks(queue[0], o);
    TotalWeightAppend(queue[1..], Deeper(queue[0], children, o));
    Shown(queue[0], children) + Walk(rest, o)
  }

  lemma {:induction false} ShownPrefix(item: Item, children: seq<Child>, k: nat)
    requires k <= |children|
    ensures Shown(item, children[..k]) == Shown(item, children)[..k]
  {
    if k < |children| {
      ShownPrefix(item, children[..|children| - 1], k);
      assert children[..|children| - 1][..k] == children[..k];
    } else {
      assert children[..k] == children;
    }
  }

  /** The inner loop: push an entry per child, and queue the directories to descend into. */
  method PushChildren(item: Item, children: seq<Child>, o: Options, entries: seq<Entry>, pending: seq<Item>)
    returns (entries': seq<Entry>, pending': seq<Item>)
    ensures entries' == entries + Shown(item, children)
    ensures pending' == pending + Deeper(item, children, o)
  {
    entries', pending' := entries, pending;
    assert children[..0] == [];
    for i := 0 to |children|
      invariant entries' == entries + Shown(item, children[..i])
      invariant pending' == pending + Deeper(item, children[..i], o)
    {
      assert children[..i + 1][..i] == children[..i];
      entries' := entries' + [EntryOf(item, children[i])];
      if Descends(item, children[i], o) {
        pending' := pending' + [Item(children[i].node, item.path + [children[i].name], item.depth + 1)];
      }
    }
    assert children[..|children|] == children;
  }

  lemma WalkStep(item: Item, rest: seq<Item>, o: Options)
    ensures var more := Deeper(item, SortedChildren(item.dir, o), o);
            && Walk([item] + rest, o) == Shown(item, SortedChildren(item.dir, o)) + Walk(rest + more, o)
            && TotalWeight(rest + more) < TotalWeight([item] + rest)
  {
    assert ([item] + rest)[1..] == rest;
    ExpandShrinks(item, o);
    TotalWeightAppend(rest, Deeper(item, SortedChildren(item.dir, o), o));
  }

  lemma CutInside<T>(before: seq<T>, shown: seq<T>, after: seq<T>, k: nat)
    requires k < |shown|
    ensures Take(before + (shown + after), |before| + k) == before + shown[..k]
    ensures |before + (shown + after)| > |before| + k
  {
  }

  /** One turn of the queue, against the listing still to come. */
  lemma Turn(all: seq<Entry>, entries: seq<Entry>, pending: seq<Item>, o: Options, remaining: nat)
    requires pending != [] && all == entries + Walk(pending, o)
    ensures var item := pending[0];
            var sorted := SortedChildren(item.dir, o);
            if |sorted| > remaining then
              |all| > |entries| + remaining && Take(all, |entries| + remaining) ==
                entries + Shown(item, Take(sorted, remaining))
            else
              var next := pending[1..] + Deeper(item, Take(sorted, remaining), o);
              && TotalWeight(next) < TotalWeight(pending)
              && all == entries + Shown(item, Take(sorted, remaining)) + Walk(next, o)
  {
    var item, rest := pending[0], pending[1..];
    var sorted := SortedChildren(item.dir, o);
    assert pending == [item] + rest;
    WalkStep(item, rest, o);
    if |sorted| > remaining {
      ShownPrefix(item, sorted, remaining);
      CutInside(entries, Shown(item, sorted), Walk(rest + Deeper(item, sorted, o), o), remaining);
    } else {
      assert Take(sorted, remaining) == sorted;
    }
  }

  /** The loop over the queue. */
  method RunQueue(queue: seq<Item>, o: Options, maxEntries: nat) returns (entries: seq<Entry>, truncated: bool)
    ensures entries == Take(Walk(queue, o), maxEntries)
    ensures truncated <==> |Walk(queue, o)| > maxEntries
  {
    var pending := queue;
    entries, truncated := [], false;
    ghost var all := Walk(queue, o);
    while pending != []
      invariant |entries| <= maxEntries
      invariant all == entries + Walk(pending, o)
      decreases TotalWeight(pending)
    {
      var remaining := maxEntries - |entries|;
      Turn(all, entries, pending, o, remaining);
      var children, directoryTruncated := ReadDirectoryEntries(pending[0].dir, o, remaining);
      entries, pending := PushChildren(pending[0], children, o, entries, pending[1..]);
      if directoryTruncated {
        return entries, true;
      }
    }
    assert all == entries;
  }

  /** `list_directory_unix`: exactly the start of the unbounded listing, cut where the bound says, and
      reported as truncated exactly when something was cut. */
  method ListDirectory(target: Dir, path: seq<Name>, o: Options, maxEntries: nat)
    returns (entries: seq<Entry>, truncated: bool)
    ensures entries == Take(LevelOrder([Item(target, path, 0)], o), maxEntries)
    ensures truncated <==> |LevelOrder([Item(target, path, 0)], o)| > maxEntries
  {
    WalkIsLevelOrder([Item(target, path, 0)], o);
    entries, truncated := RunQueue([Item(target, path, 0)], o, maxEntries);
  }

  // ---------------------------------------------------------------- level by level

  function ShownAll(items: seq<Item>, o: Options): seq<Entry>
  {
    if items == [] then [] else Shown(items[0], SortedChildren(items[0].dir, o)) + ShownAll(items[1..], o)
  }

  function DeeperAll(items: seq<Item>, o: Options): (r: seq<Item>)
  {
    if items == [] then [] else Deeper(items[0], SortedChildren(items[0].dir, o), o) + DeeperAll(items[1..], o)
  }

  lemma {:induction false} DeeperAllShrinks(items: seq<Item>, o: Options)
    ensures TotalWeight(DeeperAll(items, o)) + |items| <= TotalWeight(items)
  {
    if items != [] {
      ExpandShrinks(items[0], o);
      DeeperAllShrinks(items[1..], o);
      TotalWeightAppend(Deeper(items[0], SortedChildren(items[0].dir, o), o), DeeperAll(items[1..], o));
    }
  }

  /** The listing without a bound: every entry of one depth, then every entry of the next. */
  ghost function LevelOrder(items: seq<Item>, o: Options): seq<Entry>
    decreases TotalWeight(items)
  {
    if items == [] then [] else
    DeeperAllShrinks(items, o);
    ShownAll(items, o) + LevelOrder(DeeperAll(items, o), o)
  }

  /** A queue in the middle of one level: finish the level, then start on what it has queued so far. */
  lemma {:induction false} WalkLevel(now: seq<Item>, later: seq<Item>, o: Options)
    ensures Walk(now + later, o) == ShownAll(now, o) + Walk(later + DeeperAll(now, o), o)
    decreases |now|
  {
    if now == [] {
      assert now + later == later && later + [] == later;
    } else {
      var item, rest := now[0], now[1..];
      var shown, more := Shown(item, SortedChildren(item.dir, o)), Deeper(item, SortedChildren(item.dir, o), o);
      calc {
        Walk(now + later, o);
        { assert now + later == [item] + (rest + later); WalkStep(item, rest + later, o); }
        shown + Walk((rest + later) + more, o);
        { assert (rest + later) + more == rest + (later + more); WalkLevel(rest, later + more, o); }
        shown + (ShownAll(rest, o) + Walk((later + more) + DeeperAll(rest, o), o));
        { assert (later + more) + DeeperAll(rest, o) == later + DeeperAll(now, o); }
        ShownAll(now, o) + Walk(later + DeeperAll(now, o), o);
      }
    }
  }

  /** The queue visits the tree level by level. */
  lemma {:induction false} WalkIsLevelOrder(items: seq<Item>, o: Options)
    ensures Walk(items, o) == LevelOrder(items, o)
    decreases TotalWeight(items)
  {
    if items != [] {
      DeeperAllShrinks(items, o);
      WalkLevel(items, [], o);
      assert items + [] == items && [] + DeeperAll(items, o) == DeeperAll(items, o);
      WalkIsLevelOrder(DeeperAll(items, o), o);
    }
  }
}
