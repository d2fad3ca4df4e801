/** The fingerprint of a dirty worktree, by `provenance.rs`. */
module Provenance {
  import opened Lexicographic
  import opened Numerals

  type Byte = b: int | 0 <= b < 256

  type Bytes = seq<Byte>

  type U64 = n: nat | n < TWO_TO_64

  const TAB: Byte := '\t' as int
  const NEWLINE: Byte := '\n' as int
  const FNV_OFFSET_BASIS: U64 := 0xcbf2_9ce4_8422_2325
  const FNV_PRIME: U64 := 0x0000_0100_0000_01b3
  /** The inverse of the prime modulo two to the sixty-fourth. */
  const FNV_INVERSE: U64 := 0xce96_5057_aff6_957b
  const FINGERPRINT_HEX_WIDTH: nat := 16
  const CLEAN_WORKTREE_FINGERPRINT: string := "clean"

  // ---------------------------------------------------------------- exclusive or

  /** Bit by bit. */
  function Xor(a: nat, b: nat): nat {
    if a == 0 && b == 0 then 0 else (a + b) % 2 + 2 * Xor(a / 2, b / 2)
  }

  lemma LowBit(a: nat, b: nat, high: nat)
    ensures ((a + b) % 2 + 2 * high) / 2 == high && ((a + b) % 2 + 2 * high + b) % 2 == a % 2
  {
  }

  lemma {:induction false} XorUndoes(a: nat, b: nat)
    ensures Xor(Xor(a, b), b) == a
  {
    if !(a == 0 && b == 0) {
      XorUndoes(a / 2, b / 2);
      LowBit(a, b, Xor(a / 2, b / 2));
    }
  }

  lemma {:induction false} XorCommutes(a: nat, b: nat)
    ensures Xor(a, b) == Xor(b, a)
  {
    if !(a == 0 && b == 0) {
      XorCommutes(a / 2, b / 2);
    }
  }

  function TwoTo(k: nat): nat {
    if k == 0 then 1 else 2 * TwoTo(k - 1)
  }

  lemma {:induction false} XorBound(a: nat, b: nat, k: nat)
    requires a < TwoTo(k) && b < TwoTo(k)
    ensures Xor(a, b) < TwoTo(k)
  {
    if !(a == 0 && b == 0) {
      XorBound(a / 2, b / 2, k - 1);
    }
  }

  lemma {:induction false} TwoToAdds(j: nat, k: nat)
    ensures TwoTo(j + k) == TwoTo(j) * TwoTo(k)
  {
    if j > 0 {
      TwoToAdds(j - 1, k);
      TimesRegroups(2, TwoTo(j - 1), TwoTo(k));
    }
  }

  lemma TwoToSixtyFour()
    ensures TwoTo(64) == TWO_TO_64
  {
    assert TwoTo(4) == 16;
    TwoToAdds(4, 4);
    TwoToAdds(8, 8);
    TwoToAdds(16, 16);
    TwoToAdds(32, 32);
  }

  function Mix(hash: U64, byte: Byte): U64 {
    TwoToSixtyFour();
    XorBound(hash, byte, 64);
    Xor(hash, byte)
  }

  // ---------------------------------------------------------------- FNV-1a

  /** `wrapping_mul`. */
  function WrappingMul(a: U64, b: U64): U64 {
    a * b % TWO_TO_64
  }

  /** One byte of FNV-1a. */
  function Step(hash: U64, byte: Byte): U64 {
    WrappingMul(Mix(hash, byte), FNV_PRIME)
  }

  function Unstep(hash: U64, byte: Byte): U64 {
    Mix(WrappingMul(hash, FNV_INVERSE), byte)
  }

  lemma TimesPrimeAndBack(x: U64)
    ensures WrappingMul(WrappingMul(x, FNV_PRIME), FNV_INVERSE) == x
    ensures WrappingMul(WrappingMul(x, FNV_INVERSE), FNV_PRIME) == x
  {
    Undo(x, FNV_PRIME, FNV_INVERSE, 0xce_9650_590f);
    Undo(x, FNV_INVERSE, FNV_PRIME, 0xce_9650_590f);
  }

  lemma WrapsTo(x: U64, t: int)
    ensures (x + t * 0x1_0000_0000_0000_0000) % 0x1_0000_0000_0000_0000 == x
  {
  }

  lemma Regroup(x: int, p: int, i: int, q: int, m: int, k: int)
    requires p * i == 1 + k * m
    ensures (x * p - q * m) * i == x + (x * k - q * i) * m
  {
    assert (x * p - q * m) * i == x * (p * i) - q * i * m;
    assert x * (1 + k * m) == x + x * k * m;
  }

  lemma Undo(x: U64, p: U64, i: U64, k: nat)
    requires p * i == 1 + k * TWO_TO_64
    ensures WrappingMul(WrappingMul(x, p), i) == x
  {
    var q := x * p / TWO_TO_64;
    assert WrappingMul(x, p) == x * p - q * TWO_TO_64;
    Regroup(x, p, i, q, TWO_TO_64, k);
    WrapsTo(x, x * k - q * i);
  }

  /** Each step is a bijection on 64-bit values, whatever the byte. */
  lemma StepIsBijection(hash: U64, byte: Byte)
    ensures Unstep(Step(hash, byte), byte) == hash && Step(Unstep(hash, byte), byte) == hash
  {
    TimesPrimeAndBack(Mix(hash, byte));
    XorUndoes(hash, byte);
    var before := WrappingMul(hash, FNV_INVERSE);
    XorUndoes(before, byte);
    TimesPrimeAndBack(hash);
  }

  lemma StepTellsBytesApart(hash: U64, x: Byte, y: Byte)
    requires Step(hash, x) == Step(hash, y)
    ensures x == y
  {
    TimesPrimeAndBack(Mix(hash, x));
    TimesPrimeAndBack(Mix(hash, y));
    XorCommutes(hash, x);
    XorCommutes(hash, y);
    XorUndoes(x, hash);
    XorUndoes(y, hash);
  }

  function Combined(payload: Bytes): U64 {
    if payload == [] then FNV_OFFSET_BASIS else Step(Combined(payload[..|payload| - 1]), payload[|payload| - 1])
  }

  /** `combine`. */
  method Combine(payload: Bytes) returns (hash: U64)
    ensures hash == Combined(payload)
  {
    hash := FNV_OFFSET_BASIS;
    assert payload[..0] == [];
    for i := 0 to |payload|
      invariant hash == Combined(payload[..i])
    {
      assert payload[..i + 1][..i] == payload[..i];
      hash := Mix(hash, payload[i]);
      hash := WrappingMul(hash, FNV_PRIME);
    }
    assert payload[..|payload|] == payload;
  }

  /** Payloads of one length that differ in one byte never share a hash. */
  lemma {:induction false} OneByteShows(front: Bytes, x: Byte, y: Byte, back: Bytes)
    ensures x != y ==> Combined(front + [x] + back) != Combined(front + [y] + back)
  {
    var a, b := front + [x] + back, front + [y] + back;
    if Combined(a) != Combined(b) {
      return;
    }
    if back == [] {
      assert a[..|a| - 1] == front && b[..|b| - 1] == front;
      StepTellsBytesApart(Combined(front), x, y);
    } else {
      var rest, last := back[..|back| - 1], back[|back| - 1];
      assert a[..|a| - 1] == front + [x] + rest && b[..|b| - 1] == front + [y] + rest;
      StepIsBijection(Combined(front + [x] + rest), last);
      StepIsBijection(Combined(front + [y] + rest), last);
      OneByteShows(front, x, y, rest);
    }
  }

  // ---------------------------------------------------------------- entries and their order

  datatype DirtyEntry = DirtyEntry(path: Bytes, status: Bytes, contentDigest: Bytes)

  /** Two fields in a row, with a mark between them that sorts before every byte. */
  function Then(field: Text, more: Text): Text {
    field + [-1] + more
  }

  function Key(e: DirtyEntry): Text {
    Then(e.path, Then(e.status, e.contentDigest))
  }

  lemma {:induction false} LessByFields(p: Bytes, q: Bytes, x: Text, y: Text)
    ensures Less(Then(p, x), Then(q, y)) <==> Less(p, q) || (p == q && Less(x, y))
  {
    var a, b := Then(p, x), Then(q, y);
    if p == [] || q == [] {
      assert p == [] ==> a[1..] == x;
      assert q == [] ==> b[1..] == y;
    } else {
      LessByFields(p[1..], q[1..], x, y);
      assert a[1..] == Then(p[1..], x) && b[1..] == Then(q[1..], y);
      assert p[0] == q[0] && p[1..] == q[1..] ==> p == q;
    }
  }

  /** The derived order: path first, then status, then digest. */
  lemma KeyOrder(a: DirtyEntry, b: DirtyEntry)
    ensures Less(Key(a), Key(b)) <==>
              || Less(a.path, b.path)
              || (a.path == b.path && Less(a.status, b.status))
              || (a.path == b.path && a.status == b.status && Less(a.contentDigest, b.contentDigest))
  {
    LessByFields(a.path, b.path, Then(a.status, a.contentDigest), Then(b.status, b.contentDigest));
    LessByFields(a.status, b.status, a.contentDigest, b.contentDigest);
  }

  lemma KeyInjective(a: DirtyEntry, b: DirtyEntry)
    requires Key(a) == Key(b)
    ensures a == b
  {
    KeyOrder(a, b);
    KeyOrder(b, a);
    Irreflexive(Key(a));
    Total(a.path, b.path);
    Total(a.status, b.status);
    Total(a.contentDigest, b.contentDigest);
  }

  function Keys(entries: seq<DirtyEntry>): seq<Text> {
    if entries == [] then [] else Keys(entries[..|entries| - 1]) + [Key(entries[|entries| - 1])]
  }

  function InsertEntry(entries: seq<DirtyEntry>, e: DirtyEntry): seq<DirtyEntry> {
    if entries == [] then [e]
    else if Less(Key(e), Key(entries[|entries| - 1]))
      then InsertEntry(entries[..|entries| - 1], e) + [entries[|entries| - 1]]
    else entries + [e]
  }

  /** `sort`, in the derived order. */
  function SortEntries(entries: seq<DirtyEntry>): seq<DirtyEntry> {
    if entries == [] then [] else InsertEntry(SortEntries(entries[..|entries| - 1]), entries[|entries| - 1])
  }

  lemma KeysOfOneMore(entries: seq<DirtyEntry>, e: DirtyEntry)
    ensures Keys(entries + [e]) == Keys(entries) + [Key(e)]
  {
    assert (entries + [e])[..|entries|] == entries;
  }

  lemma {:induction false} KeysOfInsert(entries: seq<DirtyEntry>, e: DirtyEntry)
    ensures Keys(InsertEntry(entries, e)) == Insert(Keys(entries), Key(e))
  {
    if entries == [] {
      KeysOfOneMore([], e);
    } else {
      var front, last := entries[..|entries| - 1], entries[|entries| - 1];
      KeysOfInsert(front, e);
      KeysOfOneMore(InsertEntry(front, e), last);
      KeysOfOneMore(entries, e);
    }
  }

  lemma {:induction false} KeysOfSort(entries: seq<DirtyEntry>)
    ensures Keys(SortEntries(entries)) == Sort(Keys(entries))
  {
    if entries != [] {
      KeysOfSort(entries[..|entries| - 1]);
      KeysOfInsert(SortEntries(entries[..|entries| - 1]), entries[|entries| - 1]);
    }
  }

  lemma {:induction false} KeysInjective(a: seq<DirtyEntry>, b: seq<DirtyEntry>)
    requires Keys(a) == Keys(b)
    ensures a == b
  {
    KeysLength(a);
    KeysLength(b);
    if a != [] {
      var n := |a| - 1;
      assert Keys(a)[..n] == Keys(a[..n]) && Keys(b)[..n] == Keys(b[..n]);
      KeysInjective(a[..n], b[..n]);
      KeyInjective(a[n], b[n]);
      assert a == a[..n] + [a[n]] && b == b[..n] + [b[n]];
    }
  }

  lemma {:induction false} KeysLength(entries: seq<DirtyEntry>)
    ensures |Keys(entries)| == |entries|
  {
    if entries != [] {
      KeysLength(entries[..|entries| - 1]);
    }
  }

  lemma {:induction false} KeysContents(entries: seq<DirtyEntry>, e: DirtyEntry)
    ensures multiset(Keys(entries))[Key(e)] == multiset(entries)[e]
  {
    if entries != [] {
      var front, last := entries[..|entries| - 1], entries[|entries| - 1];
      KeysContents(front, e);
      assert entries == front + [last];
      if Key(last) == Key(e) {
        KeyInjective(last, e);
      }
    }
  }

  lemma {:induction false} KeysFrom(entries: seq<DirtyEntry>, k: Text)
    ensures k in Keys(entries) ==> exists e :: e in entries && k == Key(e)
  {
    if entries != [] {
      KeysFrom(entries[..|entries| - 1], k);
      assert forall e :: e in entries[..|entries| - 1] ==> e in entries;
    }
  }

  lemma SameContents(a: seq<DirtyEntry>, b: seq<DirtyEntry>)
    ensures multiset(Keys(a)) == multiset(Keys(b)) <==> multiset(a) == multiset(b)
  {
    if multiset(Keys(a)) == multiset(Keys(b)) {
      forall e ensures multiset(a)[e] == multiset(b)[e] {
        KeysContents(a, e);
        KeysContents(b, e);
      }
    }
    if multiset(a) == multiset(b) {
      forall k ensures multiset(Keys(a))[k] == multiset(Keys(b))[k] {
        KeyCount(a, b, k);
      }
    }
  }

  lemma KeyCount(a: seq<DirtyEntry>, b: seq<DirtyEntry>, k: Text)
    requires multiset(a) == multiset(b)
    ensures multiset(Keys(a))[k] == multiset(Keys(b))[k]
  {
    KeysFrom(a, k);
    KeysFrom(b, k);
    if k in Keys(a) {
      var e :| e in a && k == Key(e);
      KeysContents(a, e);
      KeysContents(b, e);
    } else if k in Keys(b) {
      var e :| e in b && k == Key(e);
      KeysContents(a, e);
      KeysContents(b, e);
    }
  }

  // ---------------------------------------------------------------- the manifest

  function Record(e: DirtyEntry): Bytes {
    e.path + [TAB] + (e.status + [TAB] + (e.contentDigest + [NEWLINE]))
  }

  function Records(entries: seq<DirtyEntry>): Bytes {
    if entries == [] then [] else Records(entries[..|entries| - 1]) + Record(entries[|entries| - 1])
  }

  function Manifest(entries: seq<DirtyEntry>): Bytes {
    Records(SortEntries(entries))
  }

  /** `canonical_manifest`. */
  method CanonicalManifest(entries: seq<DirtyEntry>) returns (manifest: Bytes)
    ensures manifest == Manifest(entries)
  {
    var sorted := SortEntries(entries);
    manifest := [];
    assert sorted[..0] == [];
    for i := 0 to |sorted|
      invariant manifest == Records(sorted[..i])
    {
      assert sorted[..i + 1][..i] == sorted[..i];
      ghost var before := manifest;
      manifest := manifest + sorted[i].path;
      manifest := manifest + [TAB];
      manifest := manifest + sorted[i].status;
      manifest := manifest + [TAB];
      manifest := manifest + sorted[i].contentDigest;
      manifest := manifest + [NEWLINE];
      assert manifest == before + Record(sorted[i]);
    }
    assert sorted[..|sorted|] == sorted;
  }

  /** The manifest does not depend on the order entries are reported in. */
  lemma ManifestIgnoresOrder(a: seq<DirtyEntry>, b: seq<DirtyEntry>)
    requires multiset(a) == multiset(b)
    ensures Manifest(a) == Manifest(b)
  {
    SameContents(a, b);
    SortIgnoresOrder(Keys(a), Keys(b));
    KeysOfSort(a);
    KeysOfSort(b);
    KeysInjective(SortEntries(a), SortEntries(b));
  }

  // ---------------------------------------------------------------- reading a manifest back

  predicate Plain(field: Bytes) {
    TAB !in field && NEWLINE !in field
  }

  /** How many tabs follow the last newline. */
  function Tabs(text: Bytes): nat {
    if text == [] then 0 else
    var front, last := text[..|text| - 1], text[|text| - 1];
    if last == NEWLINE then 0 else Tabs(front) + if last == TAB then 1 else 0
  }

  /** The byte at `i` ends a line that holds a whole record's two separators. */
  predicate EndsRecord(text: Bytes, i: nat)
    requires i < |text|
  {
    text[i] == NEWLINE && Tabs(text[..i]) >= 2
  }

  /** No line that ends inside the path holds two tabs. */
  predicate Steady(path: Bytes) {
    forall i :: 0 <= i < |path| ==> !EndsRecord(path, i)
  }

  /** Status and digest as Git gives them, and a path that cannot be taken for a record. */
  predicate SteadyEntry(e: DirtyEntry) {
    Steady(e.path) && Plain(e.status) && Plain(e.contentDigest)
  }

  predicate AllSteady(entries: seq<DirtyEntry>) {
    forall e :: e in entries ==> SteadyEntry(e)
  }

  lemma {:induction false} TabsOfPlain(text: Bytes, field: Bytes)
    requires Plain(field)
    ensures Tabs(text + field) == Tabs(text)
  {
    if field == [] {
      assert text + field == text;
    } else {
      var front, last := field[..|field| - 1], field[|field| - 1];
      assert last in field && forall b :: b in front ==> b in field;
      TabsOfPlain(text, front);
      assert (text + field)[..|text + field| - 1] == text + front;
    }
  }

  lemma TabsOfTab(text: Bytes)
    ensures Tabs(text + [TAB]) == Tabs(text) + 1
  {
    assert (text + [TAB])[..|text|] == text;
  }

  /** A record without its final newline. */
  function Row(e: DirtyEntry): Bytes {
    e.path + [TAB] + e.status + [TAB] + e.contentDigest
  }

  lemma RowIsRecord(e: DirtyEntry)
    ensures Record(e) == Row(e) + [NEWLINE]
  {
  }

  lemma TabsOfRow(e: DirtyEntry)
    requires Plain(e.status) && Plain(e.contentDigest)
    ensures Tabs(Row(e)) == Tabs(e.path) + 2
  {
    TabsOfTab(e.path);
    TabsOfPlain(e.path + [TAB], e.status);
    TabsOfTab(e.path + [TAB] + e.status);
    TabsOfPlain(e.path + [TAB] + e.status + [TAB], e.contentDigest);
  }

  lemma NoNewlineAfterPath(e: DirtyEntry, i: nat)
    requires Plain(e.status) && Plain(e.contentDigest) && |e.path| <= i < |Row(e)|
    ensures Row(e)[i] != NEWLINE
  {
    var more := [TAB] + e.status + [TAB] + e.contentDigest;
    assert Row(e) == e.path + more && NEWLINE !in more;
    assert Row(e)[i] == more[i - |e.path|];
  }

  /** The first line with two tabs ends the record. */
  lemma RecordEnds(e: DirtyEntry, rest: Bytes, i: nat)
    requires SteadyEntry(e) && i <= |Row(e)|
    ensures EndsRecord(Record(e) + rest, i) <==> i == |Row(e)|
  {
    var text := Record(e) + rest;
    RowIsRecord(e);
    if i == |Row(e)| {
      assert text[..i] == Row(e);
      TabsOfRow(e);
    } else {
      assert text[i] == Row(e)[i] && text[..i] == Row(e)[..i];
      if i < |e.path| {
        assert Row(e)[..i] == e.path[..i];
        assert !EndsRecord(e.path, i);
      } else {
        NoNewlineAfterPath(e, i);
      }
    }
  }

  lemma NoLaterMark(a: Bytes, mark: Byte, x: Bytes)
    requires mark !in x
    ensures var s := a + [mark] + x; s[|a|] == mark && forall i :: |a| < i < |s| ==> s[i] != mark
  {
    forall i | |a| < i < |a| + 1 + |x| ensures (a + [mark] + x)[i] != mark {
      assert (a + [mark] + x)[i] == x[i - |a| - 1];
    }
  }

  /** Text in which the mark occurs last at one place splits there in one way. */
  lemma SplitsLast(a: Bytes, mark: Byte, x: Bytes, b: Bytes, y: Bytes)
    requires a + [mark] + x == b + [mark] + y && mark !in x && mark !in y
    ensures a == b && x == y
  {
    var s := a + [mark] + x;
    NoLaterMark(a, mark, x);
    NoLaterMark(b, mark, y);
    assert |a| == |b|;
    assert a == s[..|a|] && x == s[|a| + 1..];
  }

  lemma RowInjective(a: DirtyEntry, b: DirtyEntry)
    requires Plain(a.status) && Plain(a.contentDigest) && Plain(b.status) && Plain(b.contentDigest) && Row(a) == Row(b)
    ensures a == b
  {
    SplitsLast(a.path + [TAB] + a.status, TAB, a.contentDigest, b.path + [TAB] + b.status, b.contentDigest);
    SplitsLast(a.path, TAB, a.status, b.path, b.status);
  }

  lemma OneMoreRecord(entries: seq<DirtyEntry>, e: DirtyEntry)
    ensures Records(entries + [e]) == Records(entries) + Record(e)
  {
    assert (entries + [e])[..|entries|] == entries;
  }

  lemma Regrouped(a: Bytes, b: Bytes, c: Bytes)
    ensures a + b + c == a + (b + c)
  {
  }

  lemma {:induction false} RecordsFromFront(e: DirtyEntry, rest: seq<DirtyEntry>)
    ensures Records([e] + rest) == Record(e) + Records(rest)
  {
    if rest == [] {
      OneMoreRecord([], e);
      assert [e] + rest == [] + [e];
    } else {
      var front, last := rest[..|rest| - 1], rest[|rest| - 1];
      RecordsFromFront(e, front);
      assert [e] + rest == [e] + front + [last] && rest == front + [last];
      OneMoreRecord([e] + front, last);
      OneMoreRecord(front, last);
      Regrouped(Record(e), Records(front), Record(last));
    }
  }

  lemma RecordSplits(a: DirtyEntry, x: Bytes, b: DirtyEntry, y: Bytes)
    requires SteadyEntry(a) && SteadyEntry(b) && Record(a) + x == Record(b) + y
    ensures a == b && x == y
  {
    var text := Record(a) + x;
    RowIsRecord(a);
    RowIsRecord(b);
    RecordEnds(a, x, |Row(a)|);
    RecordEnds(b, y, |Row(b)|);
    if |Row(a)| <= |Row(b)| {
      RecordEnds(b, y, |Row(a)|);
    } else {
      RecordEnds(a, x, |Row(b)|);
    }
    assert Row(a) == text[..|Row(a)|] == Row(b);
    RowInjective(a, b);
    assert x == text[|Record(a)|..] && y == text[|Record(b)|..];
  }

  lemma {:induction false} RecordsInjective(a: seq<DirtyEntry>, b: seq<DirtyEntry>)
    requires AllSteady(a) && AllSteady(b) && Records(a) == Records(b)
    ensures a == b
  {
    if a != [] && b != [] {
      assert a == [a[0]] + a[1..] && b == [b[0]] + b[1..];
      RecordsFromFront(a[0], a[1..]);
      RecordsFromFront(b[0], b[1..]);
      RecordSplits(a[0], Records(a[1..]), b[0], Records(b[1..]));
      RecordsInjective(a[1..], b[1..]);
    }
  }

  lemma SortKeepsContents(entries: seq<DirtyEntry>)
    ensures multiset(SortEntries(entries)) == multiset(entries)
    ensures AllSteady(entries) ==> AllSteady(SortEntries(entries))
  {
    KeysOfSort(entries);
    SortContents(Keys(entries));
    SameContents(SortEntries(entries), entries);
    assert forall e :: e in SortEntries(entries) ==> e in multiset(entries);
  }

  /** Unless a path holds a line that could be a record, entries have the same manifest exactly when they are the
      same entries, each as often. */
  lemma ManifestIffSameEntries(a: seq<DirtyEntry>, b: seq<DirtyEntry>)
    requires AllSteady(a) && AllSteady(b)
    ensures Manifest(a) == Manifest(b) <==> multiset(a) == multiset(b)
  {
    SortKeepsContents(a);
    SortKeepsContents(b);
    if Manifest(a) == Manifest(b) {
      RecordsInjective(SortEntries(a), SortEntries(b));
    }
    if multiset(a) == multiset(b) {
      ManifestIgnoresOrder(a, b);
    }
  }

  // ---------------------------------------------------------------- which paths are safe

  /** Status and digest as Git gives them, and only the allowed separators in the path. */
  predicate AllowedEntry(e: DirtyEntry, tab: bool, newline: bool) {
    && Plain(e.status) && Plain(e.contentDigest)
    && (TAB in e.path ==> tab) && (NEWLINE in e.path ==> newline)
  }

  predicate AllAllowed(entries: seq<DirtyEntry>, tab: bool, newline: bool) {
    forall e :: e in entries ==> AllowedEntry(e, tab, newline)
  }

  ghost predicate InjectiveFor(tab: bool, newline: bool) {
    forall a, b :: AllAllowed(a, tab, newline) && AllAllowed(b, tab, newline) ==>
      (Manifest(a) == Manifest(b) <==> multiset(a) == multiset(b))
  }

  lemma {:induction false} TabsWithoutTab(text: Bytes)
    requires TAB !in text
    ensures Tabs(text) == 0
  {
    if text != [] {
      assert forall b :: b in text[..|text| - 1] ==> b in text;
      assert text[|text| - 1] in text;
      TabsWithoutTab(text[..|text| - 1]);
    }
  }

  lemma OneSeparatorIsSteady(path: Bytes)
    requires TAB !in path || NEWLINE !in path
    ensures Steady(path)
  {
    forall i | 0 <= i < |path| ensures !EndsRecord(path, i) {
      assert path[i] in path;
      if TAB !in path {
        assert forall b :: b in path[..i] ==> b in path;
        TabsWithoutTab(path[..i]);
      }
    }
  }

  /** A file whose name spells the record of `a` and the path of `b`. */
  function Spelled(a: DirtyEntry, b: DirtyEntry): DirtyEntry {
    DirtyEntry(Row(a) + [NEWLINE] + b.path, b.status, b.contentDigest)
  }

  lemma SpelledRecord(a: DirtyEntry, b: DirtyEntry)
    ensures Record(Spelled(a, b)) == Record(a) + Record(b)
  {
    RowIsRecord(a);
    var rest := [TAB] + (b.status + [TAB] + (b.contentDigest + [NEWLINE]));
    assert Record(b) == b.path + rest;
    assert Record(Spelled(a, b)) == Record(a) + b.path + rest;
    Regrouped(Record(a), b.path, rest);
  }

  lemma SortedPair(a: DirtyEntry, b: DirtyEntry)
    requires Less(a.path, b.path)
    ensures SortEntries([a, b]) == [a, b]
  {
    KeyOrder(a, b);
    Asymmetric(Key(a), Key(b));
    assert [a, b][..1] == [a] && [a][..0] == [];
    assert SortEntries([a]) == InsertEntry([], a);
  }

  /** For any two files, the first one sorting before the second, one file has the same manifest as the two. */
  lemma NameSpellsRecord(a: DirtyEntry, b: DirtyEntry)
    requires Less(a.path, b.path)
    ensures Manifest([Spelled(a, b)]) == Manifest([a, b])
    ensures multiset([Spelled(a, b)]) != multiset([a, b])
  {
    OneRecord(Spelled(a, b));
    SpelledRecord(a, b);
    SortedPair(a, b);
    OneMoreRecord([a], b);
    OneRecord(a);
    assert SortEntries([a]) == [a] by {
      assert [a][..0] == [];
    }
    assert [a] + [b] == [a, b];
    assert |multiset([Spelled(a, b)])| == 1 && |multiset([a, b])| == 2;
  }

  /** The file named "a", tab, "M", tab, "d", newline, "b" is taken for a file "a" and a file "b". */
  lemma OneFileLooksLikeTwo()
    ensures !InjectiveFor(true, true)
  {
    var a, b := DirtyEntry([97], [77], [100]), DirtyEntry([98], [63, 63], [101]);
    NameSpellsRecord(a, b);
    assert AllAllowed([Spelled(a, b)], true, true) && AllAllowed([a, b], true, true);
  }

  /** Whatever paths may hold apart from separators, the manifest tells all dirty states apart exactly unless both
      tab and newline are allowed in one path. */
  lemma InjectiveUnlessBoth(tab: bool, newline: bool)
    ensures InjectiveFor(tab, newline) <==> !(tab && newline)
  {
    if tab && newline {
      OneFileLooksLikeTwo();
    } else {
      forall a, b | AllAllowed(a, tab, newline) && AllAllowed(b, tab, newline)
        ensures Manifest(a) == Manifest(b) <==> multiset(a) == multiset(b)
      {
        forall e | e in a || e in b ensures SteadyEntry(e) {
          OneSeparatorIsSteady(e.path);
        }
        ManifestIffSameEntries(a, b);
      }
    }
  }

  lemma OneRecord(e: DirtyEntry)
    ensures Manifest([e]) == Record(e)
    ensures Manifest([e]) == e.path + ['\t' as int] + e.status + ['\t' as int] + e.contentDigest + ['\n' as int]
  {
    assert [e][..0] == [];
    assert SortEntries([e]) == [e];
    OneMoreRecord([], e);
    assert [] + [e] == [e];
    assert Records([]) + Record(e) == Record(e);
  }

  // ---------------------------------------------------------------- the stamp

  function Zeros(n: nat): (s: string)
    ensures |s| == n && forall i :: 0 <= i < n ==> s[i] == '0'
  {
    seq(n, _ => '0')
  }

  /** `{:016x}`. */
  function Padded(hash: U64): string {
    if |Hex(hash)| < FINGERPRINT_HEX_WIDTH then Zeros(FINGERPRINT_HEX_WIDTH - |Hex(hash)|) + Hex(hash) else Hex(hash)
  }

  /** Values of FNV-1a with 64 bits that its authors list: for no bytes, for "a" and for "b". */
  lemma KnownHashes(a: Byte, b: Byte)
    requires a == 'a' as int && b == 'b' as int
    ensures Combined([]) == 0xcbf2_9ce4_8422_2325
    ensures Combined([a]) == 0xaf63_dc4c_8601_ec8c && Combined([b]) == 0xaf63_df4c_8601_f1a5
  {
    XorOfBasis(0x25, a, b);
    ProductIs();
    HashOfOne(0x25, a, 0x44, 0xaf63_dc4c_8601_ec8c);
    HashOfOne(0x25, b, 0x47, 0xaf63_df4c_8601_f1a5);
  }

  lemma ProductIs()
    ensures WrappingMul(0xcbf2_9ce4_8422_2344, FNV_PRIME) == 0xaf63_dc4c_8601_ec8c
    ensures WrappingMul(0xcbf2_9ce4_8422_2347, FNV_PRIME) == 0xaf63_df4c_8601_f1a5
  {
  }

  lemma XorOfBasis(low: Byte, a: Byte, b: Byte)
    requires low == 0x25 && a == 97 && b == 98
    ensures Xor(low, a) == 0x44 && Xor(low, b) == 0x47
  {
    XorStep(1, 3);
    XorStep(2, 6);
    XorStep(4, 12);
    XorStep(9, 24);
    XorStep(18, 48);
    XorStep(18, 49);
    XorStep(low, a);
    XorStep(low, b);
  }

  lemma HashOfOne(low: Byte, b: Byte, mixed: nat, hash: nat)
    requires low == 0x25 && Xor(low, b) == mixed < 256 && WrappingMul(0xcbf2_9ce4_8422_2300 + mixed, FNV_PRIME) == hash
    ensures Combined([b]) == hash
  {
    XorOfBytes(0xcb_f29c_e484_2223, low, b);
    assert [b][..0] == [];
  }

  lemma XorOfBytes(high: nat, low: Byte, b: Byte)
    ensures Xor(high * 256 + low, b) == high * 256 + Xor(low, b)
  {
    assert TwoTo(8) == 256;
    XorLow(high, low, b, 8);
  }

  /** Only the low bits change. */
  lemma {:induction false} XorLow(high: nat, low: nat, b: nat, k: nat)
    requires low < TwoTo(k) && b < TwoTo(k)
    ensures Xor(high * TwoTo(k) + low, b) == high * TwoTo(k) + Xor(low, b)
  {
    if k == 0 {
      XorZero(high);
    } else {
      var all, half := high * TwoTo(k) + low, high * TwoTo(k - 1);
      TimesRegroups(high, 2, TwoTo(k - 1));
      assert all == 2 * half + low;
      assert all / 2 == half + low / 2 && (all + b) % 2 == (low + b) % 2;
      XorLow(high, low / 2, b / 2, k - 1);
      XorStep(all, b);
      XorStep(low, b);
    }
  }

  lemma {:induction false} XorZero(a: nat)
    ensures Xor(a, 0) == a
  {
    if a > 0 {
      XorZero(a / 2);
    }
  }

  lemma XorStep(a: nat, b: nat)
    ensures Xor(a, b) == (a + b) % 2 + 2 * Xor(a / 2, b / 2)
  {
  }

  /** `dirty_tree_fingerprint`. */
  function Fingerprint(entries: seq<DirtyEntry>): string {
    if entries == [] then CLEAN_WORKTREE_FINGERPRINT else Padded(Combined(Manifest(entries)))
  }

  lemma {:induction false} ZerosCountForNothing(zeros: string, digits: string)
    requires forall i :: 0 <= i < |zeros| ==> zeros[i] == '0'
    ensures Value(zeros + digits, 16) == Value(digits, 16)
  {
    if digits == "" {
      assert zeros + digits == zeros;
      if zeros != "" {
        ZerosCountForNothing(zeros[..|zeros| - 1], "");
        assert zeros[..|zeros| - 1] + "" == zeros[..|zeros| - 1];
      }
    } else {
      ZerosCountForNothing(zeros, digits[..|digits| - 1]);
      assert (zeros + digits)[..|zeros + digits| - 1] == zeros + digits[..|digits| - 1];
    }
  }

  /** Sixteen hexadecimal digits that name the hash. */
  lemma PaddedNamesHash(hash: U64)
    ensures |Padded(hash)| == 16 && Value(Padded(hash), 16) == hash
    ensures forall i :: 0 <= i < |Padded(hash)| ==> IsDigit(Padded(hash)[i])
  {
    HexWidths();
    DigitsBound(hash, 16, 16);
    ValueOfDigits(hash, 16);
    if |Hex(hash)| < FINGERPRINT_HEX_WIDTH {
      ZerosCountForNothing(Zeros(FINGERPRINT_HEX_WIDTH - |Hex(hash)|), Hex(hash));
    }
  }

  /** Two dirty worktrees share a stamp exactly when their manifests share a hash, and none has the clean marker. */
  lemma StampsNameHashes(a: seq<DirtyEntry>, b: seq<DirtyEntry>)
    requires a != []
    ensures Fingerprint(a) == Fingerprint(b) <==> b != [] && Combined(Manifest(a)) == Combined(Manifest(b))
    ensures Fingerprint([]) == "clean" && |Fingerprint(a)| == 16
  {
    PaddedNamesHash(Combined(Manifest(a)));
    PaddedNamesHash(Combined(Manifest(b)));
  }

  /** Worktrees whose manifests differ in one byte, as when one digest does, never share a stamp. */
  lemma OneByteShowsInStamp(a: seq<DirtyEntry>, b: seq<DirtyEntry>, front: Bytes, x: Byte, y: Byte, back: Bytes)
    requires a != [] && Manifest(a) == front + [x] + back && Manifest(b) == front + [y] + back && x != y
    ensures Fingerprint(a) != Fingerprint(b)
  {
    StampsNameHashes(a, b);
    OneByteShows(front, x, y, back);
  }
}
