/** The order of byte strings, and of anything compared element by element, with sorting by insertion. */
module Lexicographic {

  type Text = seq<int>

  /** `a` sorts strictly before `b`. */
  predicate Less(a: Text, b: Text) {
    b != [] && (a == [] || a[0] < b[0] || (a[0] == b[0] && Less(a[1..], b[1..])))
  }

  lemma {:induction false} Irreflexive(a: Text)
    ensures !Less(a, a)
  {
    if a != [] {
      Irreflexive(a[1..]);
    }
  }

  lemma {:induction false} Transitive(a: Text, b: Text, c: Text)
    requires Less(a, b) && Less(b, c)
    ensures Less(a, c)
  {
    if a != [] && a[0] == b[0] && b[0] == c[0] {
      Transitive(a[1..], b[1..], c[1..]);
    }
  }

  lemma {:induction false} Total(a: Text, b: Text)
    ensures a == b || Less(a, b) || Less(b, a)
  {
    if a != [] && b != [] && a[0] == b[0] {
      Total(a[1..], b[1..]);
      assert a == [a[0]] + a[1..] && b == [b[0]] + b[1..];
    }
  }

  lemma Asymmetric(a: Text, b: Text)
    requires Less(a, b)
    ensures !Less(b, a) && a != b
  {
    Irreflexive(a);
    if Less(b, a) {
      Transitive(a, b, a);
    }
  }

  /** A proper prefix sorts before what extends it. */
  lemma {:induction false} PrefixIsLess(a: Text, more: Text)
    requires more != []
    ensures Less(a, a + more)
  {
    if a != [] {
      PrefixIsLess(a[1..], more);
      assert (a + more)[1..] == a[1..] + more;
    }
  }

  // ---------------------------------------------------------------- sorted sequences

  ghost predicate Sorted(items: seq<Text>) {
    forall i, j :: 0 <= i < j < |items| ==> !Less(items[j], items[i])
  }

  /** Where a new item goes: before the first one that is greater. */
  function Insert(items: seq<Text>, item: Text): (r: seq<Text>)
    ensures |r| == |items| + 1
  {
    if items == [] then [item]
    else if Less(item, items[|items| - 1]) then Insert(items[..|items| - 1], item) + [items[|items| - 1]]
    else items + [item]
  }

  function Sort(items: seq<Text>): (r: seq<Text>)
    ensures |r| == |items|
  {
    if items == [] then [] else Insert(Sort(items[..|items| - 1]), items[|items| - 1])
  }

  lemma {:induction false} InsertContents(items: seq<Text>, item: Text)
    ensures multiset(Insert(items, item)) == multiset(items) + multiset{item}
  {
    if items != [] && Less(item, items[|items| - 1]) {
      InsertContents(items[..|items| - 1], item);
      assert items == items[..|items| - 1] + [items[|items| - 1]];
    }
  }

  /** Sorting rearranges. */
  lemma {:induction false} SortContents(items: seq<Text>)
    ensures multiset(Sort(items)) == multiset(items)
  {
    if items != [] {
      SortContents(items[..|items| - 1]);
      InsertContents(Sort(items[..|items| - 1]), items[|items| - 1]);
      assert items == items[..|items| - 1] + [items[|items| - 1]];
    }
  }

  /** Nothing in `items` is greater than `bound`. */
  ghost predicate AtMost(items: seq<Text>, bound: Text) {
    forall i :: 0 <= i < |items| ==> !Less(bound, items[i])
  }

  lemma {:induction false} InsertSorted(items: seq<Text>, item: Text)
    requires Sorted(items)
    ensures Sorted(Insert(items, item))
    ensures forall bound :: AtMost(items, bound) && !Less(bound, item) ==> AtMost(Insert(items, item), bound)
  {
    if items != [] {
      var front, last := items[..|items| - 1], items[|items| - 1];
      if Less(item, last) {
        InsertSorted(front, item);
        Asymmetric(item, last);
        assert AtMost(front, last);
        assert forall bound :: AtMost(items, bound) ==> AtMost(front, bound) && !Less(bound, items[|items| - 1]);
      } else {
        forall i | 0 <= i < |items| ensures !Less(item, items[i]) {
          LastIsGreatest(items, i);
          NotLessTransitive(item, last, items[i]);
        }
      }
    }
  }

  lemma NotLessTransitive(a: Text, b: Text, c: Text)
    requires !Less(a, b) && !Less(b, c)
    ensures !Less(a, c)
  {
    Total(a, b);
    if Less(a, c) && a != b {
      Transitive(b, a, c);
    }
  }

  lemma {:induction false} SortSorted(items: seq<Text>)
    ensures Sorted(Sort(items))
  {
    if items != [] {
      SortSorted(items[..|items| - 1]);
      InsertSorted(Sort(items[..|items| - 1]), items[|items| - 1]);
    }
  }

  lemma GreatestIsLast(a: seq<Text>, x: Text)
    requires Sorted(a) && x in a
    ensures !Less(a[|a| - 1], x)
  {
    var i :| 0 <= i < |a| && a[i] == x;
    LastIsGreatest(a, i);
  }

  lemma SameGreatest(a: seq<Text>, b: seq<Text>)
    requires Sorted(a) && Sorted(b) && multiset(a) == multiset(b) && a != []
    ensures |a| == |b| && a[|a| - 1] == b[|b| - 1]
  {
    assert |multiset(a)| == |multiset(b)|;
    var x, y := a[|a| - 1], b[|b| - 1];
    assert x in multiset(b) && y in multiset(a);
    GreatestIsLast(a, y);
    GreatestIsLast(b, x);
    Total(x, y);
  }

  lemma WithoutLast(a: seq<Text>)
    requires a != []
    ensures multiset(a[..|a| - 1]) == multiset(a) - multiset{a[|a| - 1]} && a == a[..|a| - 1] + [a[|a| - 1]]
  {
    assert a == a[..|a| - 1] + [a[|a| - 1]];
  }

  /** There is one sorted arrangement of a multiset. */
  lemma {:induction false} SortedUnique(a: seq<Text>, b: seq<Text>)
    requires Sorted(a) && Sorted(b) && multiset(a) == multiset(b)
    ensures a == b
  {
    if a == [] {
      assert |multiset(b)| == 0;
    } else {
      SameGreatest(a, b);
      WithoutLast(a);
      WithoutLast(b);
      SortedUnique(a[..|a| - 1], b[..|b| - 1]);
    }
  }

  lemma LastIsGreatest(a: seq<Text>, i: nat)
    requires Sorted(a) && i < |a|
    ensures !Less(a[|a| - 1], a[i])
  {
    Irreflexive(a[i]);
  }

  /** Sorting forgets the order items came in. */
  lemma SortIgnoresOrder(a: seq<Text>, b: seq<Text>)
    requires multiset(a) == multiset(b)
    ensures Sort(a) == Sort(b)
  {
    SortSorted(a);
    SortSorted(b);
    SortContents(a);
    SortContents(b);
    SortedUnique(Sort(a), Sort(b));
  }

  // ---------------------------------------------------------------- ordered sets

  /** A `BTreeSet`, as the sequence it iterates. */
  ghost predicate Ordered(items: seq<Text>) {
    forall i, j :: 0 <= i < j < |items| ==> Less(items[i], items[j])
  }

  function Put(items: seq<Text>, item: Text): seq<Text> {
    if item in items then items else Insert(items, item)
  }

  lemma {:induction false} InsertOrdered(items: seq<Text>, item: Text)
    requires Ordered(items) && item !in items
    ensures Ordered(Insert(items, item))
    ensures forall x :: x in Insert(items, item) <==> x in items || x == item
  {
    if items != [] {
      var front, last := items[..|items| - 1], items[|items| - 1];
      assert forall x :: x in items <==> x in front || x == last;
      if Less(item, last) {
        InsertOrdered(front, item);
        var inner := Insert(front, item);
        forall i | 0 <= i < |inner| ensures Less(inner[i], last) {
          assert inner[i] in inner;
        }
      } else {
        Total(item, last);
        forall i | 0 <= i < |front| ensures Less(front[i], item) {
          Transitive(front[i], last, item);
        }
      }
    }
  }

  lemma PutOrdered(items: seq<Text>, item: Text)
    requires Ordered(items)
    ensures Ordered(Put(items, item))
    ensures forall x :: x in Put(items, item) <==> x in items || x == item
  {
    if item !in items {
      InsertOrdered(items, item);
    }
  }

  lemma {:induction false} OrderedCount(items: seq<Text>, all: set<Text>)
    requires Ordered(items) && forall x :: x in items <==> x in all
    ensures |items| == |all|
  {
    if items == [] {
      assert all == {};
    } else {
      var front, last := items[..|items| - 1], items[|items| - 1];
      forall x | x in front ensures x != last {
        Irreflexive(last);
      }
      assert forall x :: x in items <==> x in front || x == last;
      OrderedCount(front, all - {last});
    }
  }

  lemma OrderedDiffer(items: seq<Text>)
    requires Ordered(items)
    ensures forall i, j :: 0 <= i < j < |items| ==> items[i] != items[j]
  {
    forall i, j | 0 <= i < j < |items| ensures items[i] != items[j] {
      Irreflexive(items[i]);
    }
  }

  lemma LastIsAbove(items: seq<Text>, x: Text)
    requires Ordered(items) && x in items
    ensures x == items[|items| - 1] || Less(x, items[|items| - 1])
  {
  }

  /** There is one ordered sequence of a set. */
  lemma {:induction false} OrderedUnique(a: seq<Text>, b: seq<Text>)
    requires Ordered(a) && Ordered(b) && forall x :: x in a <==> x in b
    ensures a == b
  {
    assert (a != [] ==> a[0] in b) && (b != [] ==> b[0] in a);
    if a != [] && b != [] {
      var x, y := a[|a| - 1], b[|b| - 1];
      LastIsAbove(a, y);
      LastIsAbove(b, x);
      if x != y {
        Asymmetric(x, y);
      }
      OrderedDiffer(a);
      OrderedDiffer(b);
      var front, rest := a[..|a| - 1], b[..|b| - 1];
      assert a == front + [x] && b == rest + [y];
      SameWithoutLast(front, rest, x);
      OrderedUnique(front, rest);
    }
  }

  lemma SameWithoutLast(a: seq<Text>, b: seq<Text>, x: Text)
    requires x !in a && x !in b && forall y :: y in a + [x] <==> y in b + [x]
    ensures forall y :: y in a <==> y in b
  {
    forall y ensures y in a <==> y in b {
      assert y in a + [x] <==> y in b + [x];
    }
  }

  /** The ordered sequence of a set. */
  ghost function OrderOf(items: set<Text>): (r: seq<Text>)
    ensures Ordered(r) && forall x :: x in r <==> x in items
  {
    if items == {} then [] else
    var x :| x in items;
    InsertOrdered(OrderOf(items - {x}), x);
    Insert(OrderOf(items - {x}), x)
  }

  /** Sorting distinct items orders them. */
  lemma {:induction false} SortOrdered(items: seq<Text>)
    requires forall i, j :: 0 <= i < j < |items| ==> items[i] != items[j]
    ensures Ordered(Sort(items)) && forall x :: x in Sort(items) <==> x in items
  {
    if items != [] {
      var front, last := items[..|items| - 1], items[|items| - 1];
      SortOrdered(front);
      assert forall x :: x in items <==> x in front || x == last;
      InsertOrdered(Sort(front), last);
    }
  }
}
