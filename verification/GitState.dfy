/** Parsing Git's NUL-separated status output, by `git/state.rs`. */
module GitState {
  import opened Options
  import opened Utf8

  const RENAME: Byte := 'R' as int
  const COPY: Byte := 'C' as int
  const SPACE: Byte := ' ' as int
  const SLASH: Byte := '/' as int
  const UNTRACKED: Byte := '?' as int
  const IGNORED: Byte := '!' as int

  // ---------------------------------------------------------------- pieces

  function ZeroAt(bytes: Bytes): (n: nat)
    ensures n <= |bytes| && (n < |bytes| ==> bytes[n] == 0) && 0 !in bytes[..n]
  {
    if bytes == [] || bytes[0] == 0 then 0
    else
      var n := ZeroAt(bytes[1..]);
      assert bytes[..n + 1] == [bytes[0]] + bytes[1..][..n];
      n + 1
  }

  /** `porcelain_entries`: what stands between NUL bytes, empty pieces dropped. */
  function Split(bytes: Bytes): (pieces: seq<Bytes>)
    ensures forall p :: p in pieces ==> p != [] && 0 !in p
    decreases |bytes|
  {
    if bytes == [] then [] else
    var n := ZeroAt(bytes);
    var rest := if n < |bytes| then Split(bytes[n + 1..]) else [];
    if n == 0 then rest else [bytes[..n]] + rest
  }

  predicate Clean(piece: Bytes) {
    piece != [] && 0 !in piece
  }

  function Join(pieces: seq<Bytes>): Bytes {
    if pieces == [] then [] else pieces[0] + [0] + Join(pieces[1..])
  }

  lemma {:induction false} ZeroAfter(p: Bytes, rest: Bytes)
    requires 0 !in p
    ensures ZeroAt(p + [0] + rest) == |p|
  {
    if p != [] {
      assert (p + [0] + rest)[1..] == p[1..] + [0] + rest;
      assert (p + [0] + rest)[0] == p[0] && p[0] in p;
      ZeroAfter(p[1..], rest);
    }
  }

  /** Splitting undoes terminating each piece with a NUL byte. */
  lemma {:induction false} SplitOfJoin(pieces: seq<Bytes>)
    requires forall p :: p in pieces ==> Clean(p)
    ensures Split(Join(pieces)) == pieces
  {
    if pieces != [] {
      var p, rest := pieces[0], Join(pieces[1..]);
      assert p in pieces;
      ZeroAfter(p, rest);
      var bytes := p + [0] + rest;
      assert bytes[..|p|] == p && bytes[|p| + 1..] == rest;
      SplitOfJoin(pieces[1..]);
    }
  }

  /** The iterator the parsers pull pieces from. */
  class Pieces {
    var rest: seq<Bytes>

    constructor (bytes: Bytes)
      ensures rest == Split(bytes)
    {
      rest := Split(bytes);
    }

    method Next() returns (r: Option<Bytes>)
      modifies this
      ensures old(rest) == [] ==> r == None && rest == []
      ensures old(rest) != [] ==> r == Some(old(rest)[0]) && rest == old(rest)[1..]
    {
      if rest == [] {
        return None;
      }
      r := Some(rest[0]);
      rest := rest[1..];
    }
  }

  // ---------------------------------------------------------------- what a parser keeps

  predicate IsText(bytes: Bytes) {
    FromUtf8(bytes).Valid?
  }

  function Union<R>(kept: R -> set<Bytes>, records: seq<R>): set<Bytes> {
    if records == [] then {} else Union(kept, records[..|records| - 1]) + kept(records[|records| - 1])
  }

  lemma {:induction false} UnionMeans<R>(kept: R -> set<Bytes>, records: seq<R>, p: Bytes)
    ensures p in Union(kept, records) <==> exists i :: 0 <= i < |records| && p in kept(records[i])
  {
    if records != [] {
      var front := records[..|records| - 1];
      UnionMeans(kept, front, p);
      assert forall i :: 0 <= i < |front| ==> front[i] == records[i];
    }
  }

  ghost predicate AllText<R>(checked: R -> set<Bytes>, records: seq<R>) {
    forall p :: p in Union(checked, records) ==> IsText(p)
  }

  /** What a parser answers about these records: refused unless every path it reads is text. */
  ghost function Outcome<R>(checked: R -> set<Bytes>, kept: R -> set<Bytes>,
                            records: Option<seq<R>>): Result<set<Bytes>> {
    if records.None? || !AllText(checked, records.value) then Err else Ok(Union(kept, records.value))
  }

  function Prepend<R>(front: seq<R>, rest: Option<seq<R>>): Option<seq<R>> {
    match rest case None => None case Some(records) => Some(front + records)
  }

  lemma OneMoreUnion<R>(kept: R -> set<Bytes>, front: seq<R>, last: R)
    ensures Union(kept, front + [last]) == Union(kept, front) + kept(last)
  {
    assert (front + [last])[..|front|] == front;
  }

  // A parser reads one record per turn.

  /** How far a parser has come: the records `read`, with those in `rest` still to go. */
  ghost predicate ReadSoFar<R>(checked: R -> set<Bytes>, kept: R -> set<Bytes>,
                               all: Option<seq<R>>, read: seq<R>, rest: Option<seq<R>>, paths: set<Bytes>)
  {
    all == Prepend(read, rest) && paths == Union(kept, read) && AllText(checked, read)
  }

  lemma ReadNothing<R>(checked: R -> set<Bytes>, kept: R -> set<Bytes>, all: Option<seq<R>>)
    ensures ReadSoFar(checked, kept, all, [], all, {})
  {
    assert all.Some? ==> [] + all.value == all.value;
  }

  lemma ReadAll<R>(checked: R -> set<Bytes>, kept: R -> set<Bytes>, all: Option<seq<R>>, read: seq<R>,
                   paths: set<Bytes>)
    requires ReadSoFar(checked, kept, all, read, Some([]), paths)
    ensures Outcome(checked, kept, all) == Ok(paths)
  {
    assert read + [] == read;
  }

  ghost predicate TextIn(paths: set<Bytes>) {
    forall p :: p in paths ==> IsText(p)
  }

  /** One more record is read, or what it names is not text and the outcome is a refusal. */
  lemma ReadOne<R>(checked: R -> set<Bytes>, kept: R -> set<Bytes>,
                   all: Option<seq<R>>, read: seq<R>, next: R, rest: Option<seq<R>>, paths: set<Bytes>)
    requires ReadSoFar(checked, kept, all, read, Prepend([next], rest), paths)
    ensures if TextIn(checked(next)) then ReadSoFar(checked, kept, all, read + [next], rest, paths + kept(next))
            else Outcome(checked, kept, all) == Err
  {
    OneMoreUnion(kept, read, next);
    OneMoreUnion(checked, read, next);
    PrependTwice(read, [next], rest);
    if !TextIn(checked(next)) {
      var p :| p in checked(next) && !IsText(p);
      NotTextIsRefused(checked, kept, read + [next], rest, p);
    }
  }

  lemma PrependTwice<R>(a: seq<R>, b: seq<R>, rest: Option<seq<R>>)
    ensures Prepend(a, Prepend(b, rest)) == Prepend(a + b, rest)
  {
    assert rest.Some? ==> a + (b + rest.value) == a + b + rest.value;
  }

  /** A record read with a path that is not text decides the outcome. */
  lemma NotTextIsRefused<R>(checked: R -> set<Bytes>, kept: R -> set<Bytes>, read: seq<R>, rest: Option<seq<R>>,
                            p: Bytes)
    requires p in Union(checked, read) && !IsText(p)
    ensures Outcome(checked, kept, Prepend(read, rest)) == Err
  {
    if rest.Some? {
      UnionMeans(checked, read, p);
      UnionMeans(checked, read + rest.value, p);
      var i :| 0 <= i < |read| && p in checked(read[i]);
      assert (read + rest.value)[i] == read[i];
    }
  }

  // ---------------------------------------------------------------- porcelain records

  /** One status record; a rename or copy names its original too. */
  datatype Status = Status(x: Byte, y: Byte, path: Bytes, original: Option<Bytes>)

  predicate RenameOrCopy(x: Byte, y: Byte) {
    x == RENAME || x == COPY || y == RENAME || y == COPY
  }

  /** What Git writes: a second path exactly where one of the two columns says renamed or copied. */
  predicate WellFormedStatus(s: Status) {
    && s.x != 0 && s.y != 0 && Clean(s.path)
    && (s.original.Some? <==> s.x == 'R' as int || s.x == 'C' as int || s.y == 'R' as int || s.y == 'C' as int)
    && (s.original.Some? ==> Clean(s.original.value))
  }

  function StatusPieces(s: Status): seq<Bytes> {
    [[s.x, s.y, ' ' as int] + s.path] + if s.original.Some? then [s.original.value] else []
  }

  function AllStatusPieces(records: seq<Status>): seq<Bytes> {
    if records == [] then [] else StatusPieces(records[0]) + AllStatusPieces(records[1..])
  }

  /** How Git writes the records. */
  function EncodePorcelain(records: seq<Status>): Bytes {
    Join(AllStatusPieces(records))
  }

  /** `ensure_porcelain_entry_shape`. */
  predicate HasShape(entry: Bytes) {
    |entry| >= 4 && entry[2] == SPACE
  }

  /** The records the parsers see, if every one has its shape and every rename its original. */
  function Records(pieces: seq<Bytes>): Option<seq<Status>> {
    if pieces == [] then Some([])
    else if !HasShape(pieces[0]) then None
    else
      var x, y, path := pieces[0][0], pieces[0][1], pieces[0][3..];
      if !RenameOrCopy(x, y) then Prepend([Status(x, y, path, None)], Records(pieces[1..]))
      else if |pieces| == 1 then None
      else Prepend([Status(x, y, path, Some(pieces[1]))], Records(pieces[2..]))
  }

  lemma {:induction false} StatusPiecesAreClean(records: seq<Status>)
    requires forall s :: s in records ==> WellFormedStatus(s)
    ensures forall p :: p in AllStatusPieces(records) ==> Clean(p)
  {
    if records != [] {
      assert records[0] in records;
      StatusPiecesAreClean(records[1..]);
    }
  }

  lemma {:induction false} RecordsOfPieces(records: seq<Status>)
    requires forall s :: s in records ==> WellFormedStatus(s)
    ensures Records(AllStatusPieces(records)) == Some(records)
  {
    if records != [] {
      var s, pieces := records[0], AllStatusPieces(records);
      assert s in records;
      RecordsOfPieces(records[1..]);
      assert pieces[0] == [s.x, s.y, SPACE] + s.path && pieces[0][3..] == s.path;
      assert pieces[|StatusPieces(s)|..] == AllStatusPieces(records[1..]);
      assert [s] + records[1..] == records;
    }
  }

  /** Reading back what Git wrote gives the same records, for any mix of renames and copies. */
  lemma PorcelainRoundTrip(records: seq<Status>)
    requires forall s :: s in records ==> WellFormedStatus(s)
    ensures Records(Split(EncodePorcelain(records))) == Some(records)
  {
    StatusPiecesAreClean(records);
    SplitOfJoin(AllStatusPieces(records));
    RecordsOfPieces(records);
  }

  ghost predicate StartsStatus(pieces: seq<Bytes>) {
    pieces != [] && HasShape(pieces[0]) && (RenameOrCopy(pieces[0][0], pieces[0][1]) ==> |pieces| > 1)
  }

  ghost function FirstStatus(pieces: seq<Bytes>): Status
    requires StartsStatus(pieces)
  {
    var x, y := pieces[0][0], pieces[0][1];
    Status(x, y, pieces[0][3..], if RenameOrCopy(x, y) then Some(pieces[1]) else None)
  }

  ghost function AfterStatus(pieces: seq<Bytes>): seq<Bytes>
    requires StartsStatus(pieces)
  {
    pieces[if RenameOrCopy(pieces[0][0], pieces[0][1]) then 2 else 1..]
  }

  lemma FirstIsFaithful(pieces: seq<Bytes>)
    requires StartsStatus(pieces) && forall p :: p in pieces ==> Clean(p)
    ensures WellFormedStatus(FirstStatus(pieces))
    ensures StatusPieces(FirstStatus(pieces)) + AfterStatus(pieces) == pieces
  {
    var entry := pieces[0];
    assert entry in pieces && entry == [entry[0], entry[1], SPACE] + entry[3..];
    assert forall b :: b in entry[3..] ==> b in entry;
    assert entry[0] in entry && entry[1] in entry;
    assert |pieces| > 1 ==> pieces[1] in pieces;
  }

  lemma PiecesOfPrepended(s: Status, records: seq<Status>)
    ensures AllStatusPieces([s] + records) == StatusPieces(s) + AllStatusPieces(records)
  {
    assert ([s] + records)[1..] == records;
  }

  /** Nothing else is accepted: whatever parses is what those records are written as, piece by piece. */
  lemma {:induction false} RecordsAreFaithful(pieces: seq<Bytes>)
    requires Records(pieces).Some? && forall p :: p in pieces ==> Clean(p)
    ensures AllStatusPieces(Records(pieces).value) == pieces
    ensures forall s :: s in Records(pieces).value ==> WellFormedStatus(s)
  {
    if pieces != [] {
      var rest := AfterStatus(pieces);
      FirstIsFaithful(pieces);
      RecordsAreFaithful(rest);
      PiecesOfPrepended(FirstStatus(pieces), Records(rest).value);
    }
  }

  // ---------------------------------------------------------------- the four porcelain parsers

  function OriginalOf(s: Status): set<Bytes> {
    if s.original.Some? then {s.original.value} else {}
  }

  function BothSides(s: Status): set<Bytes> {
    {s.path} + OriginalOf(s)
  }

  function RenameSource(s: Status): set<Bytes> {
    if s.x == RENAME || s.y == RENAME then OriginalOf(s) else {}
  }

  function UntrackedPath(s: Status): set<Bytes> {
    if s.x == UNTRACKED && s.y == UNTRACKED then {s.path} else {}
  }

  function LeftOutPath(s: Status): set<Bytes> {
    if (s.x == UNTRACKED && s.y == UNTRACKED) || (s.x == IGNORED && s.y == IGNORED) then {s.path} else {}
  }

  function UntrackedOrOriginal(s: Status): set<Bytes> {
    UntrackedPath(s) + OriginalOf(s)
  }

  function LeftOutOrOriginal(s: Status): set<Bytes> {
    LeftOutPath(s) + OriginalOf(s)
  }

  /** `trim_end_matches('/')`. */
  function TrimSlashes(path: Bytes): (trimmed: Bytes)
    ensures |trimmed| <= |path| && trimmed == path[..|trimmed|]
    ensures trimmed == [] || trimmed[|trimmed| - 1] != SLASH
    ensures forall i :: |trimmed| <= i < |path| ==> path[i] == SLASH
  {
    if path != [] && path[|path| - 1] == SLASH then TrimSlashes(path[..|path| - 1]) else path
  }

  function TrimmedLeftOut(s: Status): set<Bytes> {
    set p | p in LeftOutPath(s) :: TrimSlashes(p)
  }

  method PorcelainPath(bytes: Bytes) returns (r: Result<Bytes>)
    ensures r == if IsText(bytes) then Ok(bytes) else Err
  {
    return if FromUtf8(bytes).Valid? then Ok(bytes) else Err;
  }

  /** `porcelain_original_path`. */
  method PorcelainOriginalPath(entries: Pieces) returns (r: Result<Bytes>)
    modifies entries
    ensures r.Ok? <==> old(entries.rest) != [] && IsText(old(entries.rest)[0])
    ensures old(entries.rest) != [] ==> entries.rest == old(entries.rest)[1..]
    ensures r.Ok? ==> r.value == old(entries.rest)[0]
  {
    var original := entries.Next();
    if original.None? {
      return Err;
    }
    r := PorcelainPath(original.value);
  }

  lemma ReadStatus(checked: Status -> set<Bytes>, kept: Status -> set<Bytes>,
                   all: Option<seq<Status>>, read: seq<Status>, rest: seq<Bytes>, paths: set<Bytes>)
    requires ReadSoFar(checked, kept, all, read, Records(rest), paths) && rest != []
    ensures !StartsStatus(rest) ==> Outcome(checked, kept, all) == Err
    ensures StartsStatus(rest) ==>
              var s := FirstStatus(rest);
              if TextIn(checked(s)) then ReadSoFar(checked, kept, all, read + [s], Records(AfterStatus(rest)),
                                                   paths + kept(s))
              else Outcome(checked, kept, all) == Err
  {
    if StartsStatus(rest) {
      ReadOne(checked, kept, all, read, FirstStatus(rest), Records(AfterStatus(rest)), paths);
    }
  }

  /** `parse_porcelain_paths`: both sides of every record. */
  method ParsePorcelainPaths(bytes: Bytes) returns (r: Result<set<Bytes>>)
    ensures r == Outcome(BothSides, BothSides, Records(Split(bytes)))
  {
    var paths: set<Bytes> := {};
    var entries := new Pieces(bytes);
    ghost var all, read := Records(Split(bytes)), [];
    ReadNothing(BothSides, BothSides, all);
    while entries.rest != []
      invariant ReadSoFar(BothSides, BothSides, all, read, Records(entries.rest), paths)
      decreases |entries.rest|
    {
      ghost var rest := entries.rest;
      ReadStatus(BothSides, BothSides, all, read, rest, paths);
      var entry := entries.Next();
      var line := entry.value;
      if !HasShape(line) {
        return Err;
      }
      var path := PorcelainPath(line[3..]);
      if path.Err? {
        return Err;
      }
      paths := paths + {path.value};
      if RenameOrCopy(line[0], line[1]) {
        var original := PorcelainOriginalPath(entries);
        if original.Err? {
          return Err;
        }
        paths := paths + {original.value};
      }
      read := read + [FirstStatus(rest)];
    }
    ReadAll(BothSides, BothSides, all, read, paths);
    r := Ok(paths);
  }

  /** `parse_porcelain_rename_sources`: the originals of renames, not of copies. */
  method ParsePorcelainRenameSources(bytes: Bytes) returns (r: Result<set<Bytes>>)
    ensures r == Outcome(OriginalOf, RenameSource, Records(Split(bytes)))
  {
    var paths: set<Bytes> := {};
    var entries := new Pieces(bytes);
    ghost var all, read := Records(Split(bytes)), [];
    ReadNothing(OriginalOf, RenameSource, all);
    while entries.rest != []
      invariant ReadSoFar(OriginalOf, RenameSource, all, read, Records(entries.rest), paths)
      decreases |entries.rest|
    {
      ghost var rest := entries.rest;
      ReadStatus(OriginalOf, RenameSource, all, read, rest, paths);
      var entry := entries.Next();
      var line := entry.value;
      if !HasShape(line) {
        return Err;
      }
      if RenameOrCopy(line[0], line[1]) {
        var original := PorcelainOriginalPath(entries);
        if original.Err? {
          return Err;
        }
        if line[0] == RENAME || line[1] == RENAME {
          paths := paths + {original.value};
        }
      }
      read := read + [FirstStatus(rest)];
    }
    ReadAll(OriginalOf, RenameSource, all, read, paths);
    r := Ok(paths);
  }

  /** `parse_untracked_porcelain_paths`. */
  method ParseUntrackedPorcelainPaths(bytes: Bytes) returns (r: Result<set<Bytes>>)
    ensures r == Outcome(UntrackedOrOriginal, UntrackedPath, Records(Split(bytes)))
  {
    var paths: set<Bytes> := {};
    var entries := new Pieces(bytes);
    ghost var all, read := Records(Split(bytes)), [];
    ReadNothing(UntrackedOrOriginal, UntrackedPath, all);
    while entries.rest != []
      invariant ReadSoFar(UntrackedOrOriginal, UntrackedPath, all, read, Records(entries.rest), paths)
      decreases |entries.rest|
    {
      ghost var rest := entries.rest;
      ReadStatus(UntrackedOrOriginal, UntrackedPath, all, read, rest, paths);
      var entry := entries.Next();
      var line := entry.value;
      if !HasShape(line) {
        return Err;
      }
      if RenameOrCopy(line[0], line[1]) {
        var original := PorcelainOriginalPath(entries);
        if original.Err? {
          return Err;
        }
      } else if line[0] == UNTRACKED && line[1] == UNTRACKED {
        var path := PorcelainPath(line[3..]);
        if path.Err? {
          return Err;
        }
        paths := paths + {path.value};
      }
      read := read + [FirstStatus(rest)];
    }
    ReadAll(UntrackedOrOriginal, UntrackedPath, all, read, paths);
    r := Ok(paths);
  }

  /** `parse_untracked_and_ignored_porcelain_paths`: trailing separators trimmed. */
  method ParseUntrackedAndIgnoredPorcelainPaths(bytes: Bytes) returns (r: Result<set<Bytes>>)
    ensures r == Outcome(LeftOutOrOriginal, TrimmedLeftOut, Records(Split(bytes)))
  {
    var paths: set<Bytes> := {};
    var entries := new Pieces(bytes);
    ghost var all, read := Records(Split(bytes)), [];
    ReadNothing(LeftOutOrOriginal, TrimmedLeftOut, all);
    while entries.rest != []
      invariant ReadSoFar(LeftOutOrOriginal, TrimmedLeftOut, all, read, Records(entries.rest), paths)
      decreases |entries.rest|
    {
      ghost var rest := entries.rest;
      ReadStatus(LeftOutOrOriginal, TrimmedLeftOut, all, read, rest, paths);
      var entry := entries.Next();
      var line := entry.value;
      if !HasShape(line) {
        return Err;
      }
      if RenameOrCopy(line[0], line[1]) {
        var original := PorcelainOriginalPath(entries);
        if original.Err? {
          return Err;
        }
      } else if (line[0] == UNTRACKED && line[1] == UNTRACKED) || (line[0] == IGNORED && line[1] == IGNORED) {
        var path := PorcelainPath(line[3..]);
        if path.Err? {
          return Err;
        }
        paths := paths + {TrimSlashes(path.value)};
      }
      read := read + [FirstStatus(rest)];
    }
    ReadAll(LeftOutOrOriginal, TrimmedLeftOut, all, read, paths);
    r := Ok(paths);
  }

  // ---------------------------------------------------------------- what each parser says about Git's output

  ghost predicate AllWellFormed(records: seq<Status>) {
    forall s :: s in records ==> WellFormedStatus(s)
  }

  lemma AllTextMeans<R>(checked: R -> set<Bytes>, records: seq<R>)
    ensures AllText(checked, records) <==> forall s :: s in records ==> TextIn(checked(s))
  {
    forall s | s in records && AllText(checked, records) ensures TextIn(checked(s)) {
      var i :| 0 <= i < |records| && records[i] == s;
      forall p | p in checked(s) ensures IsText(p) {
        UnionMeans(checked, records, p);
      }
    }
    forall p | p in Union(checked, records) && forall s :: s in records ==> TextIn(checked(s)) ensures IsText(p) {
      UnionMeans(checked, records, p);
    }
  }

  /** The pieces of some bytes parse exactly when Git could have written them as records. */
  lemma AcceptsExactlyRecords(bytes: Bytes)
    ensures Records(Split(bytes)).Some? <==> exists records ::
            AllWellFormed(records) && AllStatusPieces(records) == Split(bytes)
  {
    if Records(Split(bytes)).Some? {
      RecordsAreFaithful(Split(bytes));
    }
    if records: seq<Status> :| AllWellFormed(records) && AllStatusPieces(records) == Split(bytes) {
      RecordsOfPieces(records);
    }
  }

  lemma BothSidesAreText(records: seq<Status>)
    ensures AllText(BothSides, records) <==>
            forall s :: s in records ==> IsText(s.path) && (s.original.Some? ==> IsText(s.original.value))
  {
    AllTextMeans(BothSides, records);
    forall s: Status
      ensures TextIn(BothSides(s)) <==> IsText(s.path) && (s.original.Some? ==> IsText(s.original.value))
    {
      assert s.path in BothSides(s) && (s.original.Some? ==> s.original.value in BothSides(s));
    }
  }

  lemma BothSidesHold(records: seq<Status>, p: Bytes)
    ensures p in Union(BothSides, records) <==>
            exists i :: 0 <= i < |records| && (records[i].path == p || records[i].original == Some(p))
  {
    UnionMeans(BothSides, records, p);
  }

  lemma PathsAreBothSides(records: seq<Status>, p: Bytes)
    requires AllWellFormed(records)
    ensures var r := Outcome(BothSides, BothSides, Records(Split(EncodePorcelain(records))));
            && (r.Ok? <==> forall s :: s in records ==>
                IsText(s.path) && (s.original.Some? ==> IsText(s.original.value)))
            && (r.Ok? ==> (p in r.value <==> exists i ::
                           0 <= i < |records| && (records[i].path == p || records[i].original == Some(p))))
  {
    PorcelainRoundTrip(records);
    BothSidesAreText(records);
    BothSidesHold(records, p);
  }

  /** After `git mv`, and after a copy, in either column: the second piece is the first one's original. */
  lemma RenameTakesOriginal(x: Byte, y: Byte, p: Bytes, q: Bytes)
    requires x != 0 && y != 0 && Clean(p) && Clean(q) && IsText(p) && IsText(q)
    requires x == 82 || x == 67 || y == 82 || y == 67
    ensures var records := Records(Split(Join([[x, y, 32] + p, q])));
            && Outcome(BothSides, BothSides, records) == Ok({p, q})
            && Outcome(OriginalOf, RenameSource, records) == Ok(if x == 82 || y == 82 then {q} else {})
  {
    var s := Status(x, y, p, Some(q));
    assert AllStatusPieces([s]) == [[x, y, 32] + p, q] by {
      assert [s][1..] == [] && StatusPieces(s) + [] == StatusPieces(s);
    }
    PorcelainRoundTrip([s]);
    assert BothSides(s) == {p, q};
    UnionOfOne(BothSides, s);
    UnionOfOne(OriginalOf, s);
    UnionOfOne(RenameSource, s);
  }

  lemma UnionOfOne<R>(kept: R -> set<Bytes>, s: R)
    ensures Union(kept, [s]) == kept(s)
  {
    assert [s][..0] == [] && {} + kept(s) == kept(s);
  }

  /** Any other two columns leave the next piece to be a record of its own. */
  lemma OthersStandAlone(x: Byte, y: Byte, p: Bytes, rest: seq<Status>)
    requires x != 0 && y != 0 && Clean(p) && AllWellFormed(rest)
    requires x != 82 && x != 67 && y != 82 && y != 67
    ensures Records(Split(Join([[x, y, 32] + p] + AllStatusPieces(rest)))) == Some([Status(x, y, p, None)] + rest)
  {
    var s := Status(x, y, p, None);
    PiecesOfPrepended(s, rest);
    PorcelainRoundTrip([s] + rest);
  }

  lemma SourcesAreRenameOriginals(records: seq<Status>, p: Bytes)
    requires AllWellFormed(records)
    ensures var r := Outcome(OriginalOf, RenameSource, Records(Split(EncodePorcelain(records))));
            && (r.Ok? <==> forall s :: s in records && s.original.Some? ==> IsText(s.original.value))
            && (r.Ok? ==> (p in r.value <==>
                  exists i :: 0 <= i < |records| && records[i].original == Some(p)
                    && (records[i].x == 'R' as int || records[i].y == 'R' as int)))
  {
    PorcelainRoundTrip(records);
    AllTextMeans(OriginalOf, records);
    UnionMeans(RenameSource, records, p);
    assert forall s :: s in records && s.original.Some? ==> s.original.value in OriginalOf(s);
  }

  lemma UntrackedAreUntracked(records: seq<Status>, p: Bytes)
    requires AllWellFormed(records)
    ensures var r := Outcome(UntrackedOrOriginal, UntrackedPath, Records(Split(EncodePorcelain(records))));
            && (r.Ok? <==> forall s :: s in records ==>
                (s.x == s.y == '?' as int ==> IsText(s.path)) && (s.original.Some? ==> IsText(s.original.value)))
            && (r.Ok? ==> (p in r.value <==>
                  exists i :: 0 <= i < |records| && records[i].path == p && records[i].x == records[i].y == '?' as int))
  {
    PorcelainRoundTrip(records);
    forall s: Status
      ensures TextIn(UntrackedOrOriginal(s)) <==>
              (s.x == s.y == '?' as int ==> IsText(s.path)) && (s.original.Some? ==> IsText(s.original.value))
    {
      assert s.x == s.y == '?' as int ==> s.path in UntrackedOrOriginal(s);
      assert s.original.Some? ==> s.original.value in UntrackedOrOriginal(s);
    }
    AllTextMeans(UntrackedOrOriginal, records);
    UnionMeans(UntrackedPath, records, p);
  }

  /** Untracked or ignored, both columns alike. */
  ghost predicate IsLeftOut(s: Status) {
    s.x == s.y && (s.x == '?' as int || s.x == '!' as int)
  }

  /** The path without the slashes at its end. */
  ghost predicate Trimmed(path: Bytes, p: Bytes) {
    && p <= path && (p == [] || p[|p| - 1] != '/' as int)
    && forall i :: |p| <= i < |path| ==> path[i] == '/' as int
  }

  lemma TrimmedOnce(path: Bytes, p: Bytes)
    ensures Trimmed(path, p) <==> TrimSlashes(path) == p
  {
    if Trimmed(path, p) {
      TrimmedAtOnePlace(path, |p|, |TrimSlashes(path)|);
    }
  }

  lemma TrimmedAtOnePlace(path: Bytes, m: nat, n: nat)
    requires m <= |path| && n <= |path| && (m == 0 || path[m - 1] != SLASH) && (n == 0 || path[n - 1] != SLASH)
    requires forall i :: m <= i < |path| ==> path[i] == SLASH
    requires forall i :: n <= i < |path| ==> path[i] == SLASH
    ensures m == n
  {
  }

  lemma LeftOutAreTrimmed(records: seq<Status>, p: Bytes)
    requires AllWellFormed(records)
    ensures var r := Outcome(LeftOutOrOriginal, TrimmedLeftOut, Records(Split(EncodePorcelain(records))));
            && (r.Ok? <==> forall s :: s in records ==>
                (IsLeftOut(s) ==> IsText(s.path)) && (s.original.Some? ==> IsText(s.original.value)))
            && (r.Ok? ==> (p in r.value <==>
                  exists i :: 0 <= i < |records| && IsLeftOut(records[i]) && Trimmed(records[i].path, p)))
  {
    PorcelainRoundTrip(records);
    forall s: Status
      ensures TextIn(LeftOutOrOriginal(s)) <==>
              (IsLeftOut(s) ==> IsText(s.path)) && (s.original.Some? ==> IsText(s.original.value))
    {
      assert IsLeftOut(s) ==> s.path in LeftOutOrOriginal(s);
      assert s.original.Some? ==> s.original.value in LeftOutOrOriginal(s);
    }
    forall s: Status ensures p in TrimmedLeftOut(s) <==> IsLeftOut(s) && Trimmed(s.path, p) {
      TrimmedOnce(s.path, p);
    }
    AllTextMeans(LeftOutOrOriginal, records);
    UnionMeans(TrimmedLeftOut, records, p);
  }

  // ---------------------------------------------------------------- name-status

  /** One `--name-status -z` record: a status field, a path, and for renames and copies a destination. */
  datatype Change = Change(status: Bytes, path: Bytes, destination: Option<Bytes>)

  predicate CarriesTwo(status: Bytes) {
    status != [] && (status[0] == RENAME || status[0] == COPY)
  }

  predicate WellFormedChange(c: Change) {
    && Clean(c.status) && Clean(c.path)
    && (c.destination.Some? <==> c.status[0] == 'R' as int || c.status[0] == 'C' as int)
    && (c.destination.Some? ==> Clean(c.destination.value))
  }

  function ChangeFields(c: Change): seq<Bytes> {
    [c.status, c.path] + if c.destination.Some? then [c.destination.value] else []
  }

  function AllChangeFields(changes: seq<Change>): seq<Bytes> {
    if changes == [] then [] else ChangeFields(changes[0]) + AllChangeFields(changes[1..])
  }

  function EncodeNameStatus(changes: seq<Change>): Bytes {
    Join(AllChangeFields(changes))
  }

  function FieldCount(status: Bytes): nat {
    if CarriesTwo(status) then 3 else 2
  }

  function FirstChange(fields: seq<Bytes>): Change
    requires fields != [] && |fields| >= FieldCount(fields[0])
  {
    Change(fields[0], fields[1], if CarriesTwo(fields[0]) then Some(fields[2]) else None)
  }

  function Changes(fields: seq<Bytes>): Option<seq<Change>> {
    if fields == [] then Some([])
    else if |fields| < FieldCount(fields[0]) then None
    else Prepend([FirstChange(fields)], Changes(fields[FieldCount(fields[0])..]))
  }

  function ChangePaths(c: Change): set<Bytes> {
    {c.path} + if c.destination.Some? then {c.destination.value} else {}
  }

  lemma {:induction false} ChangesOfFields(changes: seq<Change>)
    requires forall c :: c in changes ==> WellFormedChange(c)
    ensures Changes(AllChangeFields(changes)) == Some(changes)
    ensures forall p :: p in AllChangeFields(changes) ==> Clean(p)
  {
    if changes != [] {
      var c, fields := changes[0], AllChangeFields(changes);
      assert c in changes;
      ChangesOfFields(changes[1..]);
      assert fields[FieldCount(c.status)..] == AllChangeFields(changes[1..]);
      assert FirstChange(fields) == c && [c] + changes[1..] == changes;
    }
  }

  /** `parse_name_status_paths`. */
  method ParseNameStatusPaths(bytes: Bytes) returns (r: Result<set<Bytes>>)
    ensures r == Outcome(ChangePaths, ChangePaths, Changes(Split(bytes)))
  {
    var paths: set<Bytes> := {};
    var fields := new Pieces(bytes);
    ghost var all, read := Changes(Split(bytes)), [];
    ReadNothing(ChangePaths, ChangePaths, all);
    while fields.rest != []
      invariant ReadSoFar(ChangePaths, ChangePaths, all, read, Changes(fields.rest), paths)
      decreases |fields.rest|
    {
      ghost var rest := fields.rest;
      ReadChange(all, read, rest, paths);
      var status := fields.Next();
      var carriesTwoPaths := CarriesTwo(status.value);
      var path := fields.Next();
      if path.None? {
        return Err;
      }
      var text := PorcelainPath(path.value);
      if text.Err? {
        return Err;
      }
      paths := paths + {text.value};
      if carriesTwoPaths {
        var destination := fields.Next();
        if destination.None? {
          return Err;
        }
        var second := PorcelainPath(destination.value);
        if second.Err? {
          return Err;
        }
        paths := paths + {second.value};
      }
      read := read + [FirstChange(rest)];
    }
    ReadAll(ChangePaths, ChangePaths, all, read, paths);
    r := Ok(paths);
  }

  lemma ReadChange(all: Option<seq<Change>>, read: seq<Change>, rest: seq<Bytes>, paths: set<Bytes>)
    requires ReadSoFar(ChangePaths, ChangePaths, all, read, Changes(rest), paths) && rest != []
    ensures |rest| < FieldCount(rest[0]) ==> Outcome(ChangePaths, ChangePaths, all) == Err
    ensures |rest| >= FieldCount(rest[0]) ==>
              var c := FirstChange(rest);
              if TextIn(ChangePaths(c))
              then ReadSoFar(ChangePaths, ChangePaths, all, read + [c], Changes(rest[FieldCount(rest[0])..]),
                             paths + ChangePaths(c))
              else Outcome(ChangePaths, ChangePaths, all) == Err
  {
    if |rest| >= FieldCount(rest[0]) {
      ReadOne(ChangePaths, ChangePaths, all, read, FirstChange(rest), Changes(rest[FieldCount(rest[0])..]), paths);
    }
  }

  /** Both sides of every change come back, and a path that is not text refuses the lot. */
  lemma NameStatusRoundTrip(changes: seq<Change>, p: Bytes)
    requires forall c :: c in changes ==> WellFormedChange(c)
    ensures var r := Outcome(ChangePaths, ChangePaths, Changes(Split(EncodeNameStatus(changes))));
            && (r.Ok? <==> forall c :: c in changes ==> TextIn(ChangePaths(c)))
            && (r.Ok? ==> (p in r.value <==>
                  exists i :: 0 <= i < |changes| && (changes[i].path == p || changes[i].destination == Some(p))))
  {
    ChangesOfFields(changes);
    SplitOfJoin(AllChangeFields(changes));
    AllTextMeans(ChangePaths, changes);
    UnionMeans(ChangePaths, changes, p);
  }
}
