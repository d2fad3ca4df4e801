/** The byte budget of `fs/receipt.rs`: how records serialize, what a batch reserves, and why a batch that
    was admitted never takes the journal past its limit. Strings here are byte strings, one char a byte. */
module ReceiptBudget {
  import opened Options
  import opened Numerals
  import opened Json
  import opened Receipt

  const MAX_JOURNAL_BYTES: nat := 512 * 1024
  const MAX_RECEIPT_ID_BYTES: nat := 80
  const DIGEST_BYTES: nat := 64

  type U32 = n: nat | n < TWO_TO_32
  type U64 = n: nat | n < TWO_TO_64
  type U128 = n: nat | n < TWO_TO_128

  datatype Outcome = Applied | Refused | Unknown

  function OutcomeText(outcome: Outcome): string {
    match outcome case Applied => "applied" case Refused => "refused" case Unknown => "unknown"
  }

  // ---------------------------------------------------------------- serialization

  function BeginFields(id: Id, tool: string, path: Option<string>, beforeSha256: Option<string>,
                       beforeGitHead: Option<string>, atMs: nat): seq<Field> {
    [Field("at_ms", Some(Decimal(atMs))), Field("before_git_head", beforeGitHead), Field("before_sha256", beforeSha256),
     Field("id", Some(id)), Field("path", path), Field("record", Some("begin")), Field("tool", Some(tool))]
  }

  function SettleFields(id: Id, outcome: string, afterSha256: Option<string>, afterGitHead: Option<string>, atMs: nat)
    : seq<Field>
  {
    [Field("after_git_head", afterGitHead), Field("after_sha256", afterSha256), Field("at_ms", Some(Decimal(atMs))),
     Field("id", Some(id)), Field("outcome", Some(outcome)), Field("record", Some("settle"))]
  }

  /** The members of a journal line, in the sorted order `json!` keeps. */
  function Fields(record: Record): seq<Field>
    requires !record.Noise?
  {
    match record
    case Begin(id, tool, path, beforeSha256, beforeGitHead, atMs) =>
      BeginFields(id, GetOr(tool, ""), path, beforeSha256, beforeGitHead, GetOr(atMs, 0))
    case Settle(id, outcome, afterSha256, afterGitHead, atMs) =>
      SettleFields(id, GetOr(outcome, ""), afterSha256, afterGitHead, GetOr(atMs, 0))
  }

  /** One journal line without its newline. */
  function Line(record: Record): string
    requires !record.Noise?
  {
    Object(Fields(record))
  }

  /** `serialized_record_bytes`: the line and its newline. */
  function RecordBytes(record: Record): nat {
    if record.Noise? then record.bytes else |Line(record)| + 1
  }

  function JournalBytes(journal: Journal): nat {
    if journal == [] then 0 else JournalBytes(journal[..|journal| - 1]) + RecordBytes(journal[|journal| - 1])
  }

  // ---------------------------------------------------------------- plain text is not escaped

  predicate Plain(s: string) {
    forall i :: 0 <= i < |s| ==> IsDigit(s[i]) || s[i] == '-'
  }

  lemma PlainQuote(s: string)
    requires Plain(s)
    ensures EscapeAll(s) == s && |Quote(s)| == |s| + 2
  {
    UnescapedQuote(s);
  }

  /** No moment is written longer than the last one. */
  lemma MomentFits(ms: U128)
    ensures |Quote(Decimal(ms))| <= |Quote(Decimal(WIDEST_MS))|
  {
    ValueOfDigits(ms, 10);
    ValueOfDigits(WIDEST_MS, 10);
    PlainQuote(Decimal(ms));
    PlainQuote(Decimal(WIDEST_MS));
    DigitsMonotone(ms, WIDEST_MS, 10);
  }

  // ---------------------------------------------------------------- receipt ids

  function Dashed(head: string, tail: string): string {
    head + ['-'] + tail
  }

  /** `{began_at_ms:x}-{pid:x}-{sequence:x}`. */
  function RenderId(ms: U128, pid: U32, sequence: U64): Id {
    Dashed(Hex(ms), Dashed(Hex(pid), Hex(sequence)))
  }

  /** A generated id is plain and leaves room under the reserved length. */
  lemma RenderIdFits(ms: U128, pid: U32, sequence: U64)
    ensures Plain(RenderId(ms, pid, sequence)) && |RenderId(ms, pid, sequence)| <= 58
    ensures IdFits(RenderId(ms, pid, sequence))
  {
    HexWidths();
    DigitsBound(ms, 16, 32);
    DigitsBound(pid, 16, 8);
    DigitsBound(sequence, 16, 16);
    ValueOfDigits(ms, 16);
    ValueOfDigits(pid, 16);
    ValueOfDigits(sequence, 16);
    PlainQuote(RenderId(ms, pid, sequence));
  }

  lemma DashSplits(a: string, x: string, b: string, y: string)
    requires Dashed(a, x) == Dashed(b, y) && '-' !in a && '-' !in b
    ensures a == b && x == y
  {
    var s := Dashed(a, x);
    assert s[|a|] == '-' && s[|b|] == '-';
    assert forall i :: 0 <= i < |a| ==> s[i] == a[i] != '-';
    assert forall i :: 0 <= i < |b| ==> s[i] == b[i] != '-';
    assert a == s[..|a|] && b == s[..|b|] && x == s[|a| + 1..] && y == s[|b| + 1..];
  }

  lemma HexHasNoDash(n: nat)
    ensures '-' !in Hex(n)
  {
    ValueOfDigits(n, 16);
  }

  /** Two ids are equal only if all three numbers are. */
  lemma RenderIdInjective(ms: U128, pid: U32, sequence: U64, ms': U128, pid': U32, sequence': U64)
    requires RenderId(ms, pid, sequence) == RenderId(ms', pid', sequence')
    ensures ms == ms' && pid == pid' && sequence == sequence'
  {
    HexHasNoDash(ms);
    HexHasNoDash(ms');
    HexHasNoDash(pid);
    HexHasNoDash(pid');
    DashSplits(Hex(ms), Dashed(Hex(pid), Hex(sequence)), Hex(ms'), Dashed(Hex(pid'), Hex(sequence')));
    DashSplits(Hex(pid), Hex(sequence), Hex(pid'), Hex(sequence'));
    DigitsInjective(ms, ms', 16);
    DigitsInjective(pid, pid', 16);
    DigitsInjective(sequence, sequence', 16);
  }

  // ---------------------------------------------------------------- reservation

  function Repeat(c: char, n: nat): (s: string)
    ensures |s| == n && forall i :: 0 <= i < n ==> s[i] == c
  {
    seq(n, _ => c)
  }

  const WIDEST_MS: U128 := TWO_TO_128 - 1

  /** The template a begin record of this tool and path may not exceed. */
  function BeginTemplate(tool: string, path: string): Record {
    Begin(Repeat('f', MAX_RECEIPT_ID_BYTES), Some(tool), Some(path), Some(Repeat('f', DIGEST_BYTES)), None,
          Some(WIDEST_MS))
  }

  function SettleTemplate(): Record {
    Settle(Repeat('f', MAX_RECEIPT_ID_BYTES), Some(OutcomeText(Refused)), Some(Repeat('f', DIGEST_BYTES)), None,
           Some(WIDEST_MS))
  }

  /** Room for one begin record a path and as many settle records. */
  function Rooms(beginRoom: string -> nat, settleRoom: nat, paths: seq<string>): nat {
    if paths == [] then 0
    else Rooms(beginRoom, settleRoom, paths[..|paths| - 1]) + beginRoom(paths[|paths| - 1]) + settleRoom
  }

  function BeginRoom(tool: string): string -> nat {
    path => RecordBytes(BeginTemplate(tool, path))
  }

  lemma CommonKeys()
    ensures Unescaped("at_ms") && Unescaped("id") && Unescaped("record")
  {
  }

  lemma BeginKeys()
    ensures Unescaped("before_git_head") && Unescaped("before_sha256") && Unescaped("path") && Unescaped("tool")
  {
  }

  lemma SettleKeys()
    ensures Unescaped("after_git_head") && Unescaped("after_sha256") && Unescaped("outcome")
  {
  }

  lemma BeginIsPlain()
    ensures |Quote("begin")| == 7
  {
    UnescapedQuote("begin");
  }

  lemma SettleIsPlain()
    ensures |Quote("settle")| == 8
  {
    UnescapedQuote("settle");
  }

  lemma BeginLength(id: Id, tool: string, path: Option<string>, sha256: Option<string>, gitHead: Option<string>,
                    ms: nat)
    ensures |Object(BeginFields(id, tool, path, sha256, gitHead, ms))| ==
            |Quote(Decimal(ms))| + |Nullable(gitHead)| + |Nullable(sha256)| + |Quote(id)| + |Nullable(path)|
              + |Quote(tool)| + 85
  {
    CommonKeys();
    BeginKeys();
    BeginIsPlain();
    LengthOfSeven(BeginFields(id, tool, path, sha256, gitHead, ms));
  }

  lemma SettleLength(id: Id, outcome: string, sha256: Option<string>, gitHead: Option<string>, ms: nat)
    ensures |Object(SettleFields(id, outcome, sha256, gitHead, ms))| ==
            |Nullable(gitHead)| + |Nullable(sha256)| + |Quote(Decimal(ms))| + |Quote(id)| + |Quote(outcome)| + 79
  {
    CommonKeys();
    SettleKeys();
    SettleIsPlain();
    LengthOfSix(SettleFields(id, outcome, sha256, gitHead, ms));
  }

  /** What the entries of a batch may take together. */
  function Reservation(tool: string, paths: seq<string>): nat {
    Rooms(BeginRoom(tool), RecordBytes(SettleTemplate()), paths)
  }

  /** How long the paths are as JSON strings write them, all together. */
  function EscapedBytes(paths: seq<string>): nat {
    if paths == [] then 0 else EscapedBytes(paths[..|paths| - 1]) + |EscapeAll(paths[|paths| - 1])|
  }

  lemma BeginRoomIs(tool: string, path: string)
    ensures RecordBytes(BeginTemplate(tool, path)) == 283 + |EscapeAll(tool)| + |EscapeAll(path)|
  {
    TemplateLengths();
    WidestMoment();
    BeginLength(Repeat('f', MAX_RECEIPT_ID_BYTES), tool, Some(path), Some(Repeat('f', DIGEST_BYTES)), None, WIDEST_MS);
  }

  lemma SettleRoomIs()
    ensures RecordBytes(SettleTemplate()) == 282
  {
    TemplateLengths();
    WidestMoment();
    OutcomesEquallyLong(Refused);
    SettleLength(Repeat('f', MAX_RECEIPT_ID_BYTES), OutcomeText(Refused), Some(Repeat('f', DIGEST_BYTES)), None,
                 WIDEST_MS);
  }

  lemma WidestMoment()
    ensures |Quote(Decimal(WIDEST_MS))| == 41
  {
    WidestDecimal();
    ValueOfDigits(WIDEST_MS, 10);
    PlainQuote(Decimal(WIDEST_MS));
  }

  lemma {:induction false} RoomsAre(beginRoom: string -> nat, settleRoom: nat, each: nat, paths: seq<string>)
    requires forall path :: beginRoom(path) + settleRoom == each + |EscapeAll(path)|
    ensures Rooms(beginRoom, settleRoom, paths) == |paths| * each + EscapedBytes(paths)
  {
    if paths != [] {
      RoomsAre(beginRoom, settleRoom, each, paths[..|paths| - 1]);
      OneMoreTimes(|paths| - 1, each);
    }
  }

  lemma OneMoreTimes(n: nat, each: nat)
    ensures (n + 1) * each == n * each + each
  {
  }

  /** For each path 565 bytes besides tool and path: two ids of 80 bytes, two digests of 64, two moments of 39 digits,
      and the keys. */
  lemma ReservationIs(tool: string, paths: seq<string>)
    ensures Reservation(tool, paths) == |paths| * (565 + |EscapeAll(tool)|) + EscapedBytes(paths)
  {
    var room, settleRoom := BeginRoom(tool), RecordBytes(SettleTemplate());
    forall path ensures room(path) + settleRoom == 565 + |EscapeAll(tool)| + |EscapeAll(path)| {
      BeginRoomIs(tool, path);
      SettleRoomIs();
    }
    RoomsAre(room, settleRoom, 565 + |EscapeAll(tool)|, paths);
  }

  /** `file_batch_reservation`. */
  method FileBatchReservation(tool: string, paths: seq<string>) returns (total: nat)
    ensures total == Reservation(tool, paths)
    ensures total == |paths| * (565 + |EscapeAll(tool)|) + EscapedBytes(paths)
  {
    ReservationIs(tool, paths);
    total := SumRooms(BeginRoom(tool), RecordBytes(SettleTemplate()), paths);
  }

  method SumRooms(beginRoom: string -> nat, settleRoom: nat, paths: seq<string>) returns (total: nat)
    ensures total == Rooms(beginRoom, settleRoom, paths)
  {
    total := 0;
    assert paths[..0] == [];
    for i := 0 to |paths|
      invariant total == Rooms(beginRoom, settleRoom, paths[..i])
    {
      assert paths[..i + 1][..i] == paths[..i];
      var begin := beginRoom(paths[i]);
      total := total + begin + settleRoom;
    }
    assert paths[..|paths|] == paths;
  }

  /** A digest whose JSON text is no longer than that of 64 plain bytes. */
  predicate DigestFits(digest: Option<string>) {
    |Nullable(digest)| <= DIGEST_BYTES + 2
  }

  predicate IdFits(id: Id) {
    |Quote(id)| <= MAX_RECEIPT_ID_BYTES + 2
  }

  /** The begin record a batch appends. */
  function BatchBegin(id: Id, tool: string, path: string, digest: Option<string>, ms: U128): Record {
    Begin(id, Some(tool), Some(path), digest, None, Some(ms))
  }

  function BatchSettle(id: Id, outcome: Outcome, digest: Option<string>, ms: U128): Record {
    Settle(id, Some(OutcomeText(outcome)), digest, None, Some(ms))
  }

  lemma TemplateLengths()
    ensures |Quote(Repeat('f', MAX_RECEIPT_ID_BYTES))| == MAX_RECEIPT_ID_BYTES + 2
    ensures |Quote(Repeat('f', DIGEST_BYTES))| == DIGEST_BYTES + 2
  {
    PlainQuote(Repeat('f', MAX_RECEIPT_ID_BYTES));
    PlainQuote(Repeat('f', DIGEST_BYTES));
  }

  /** A begin record of a batch is no longer than its template. */
  lemma BeginFits(id: Id, tool: string, path: string, digest: Option<string>, ms: U128)
    requires IdFits(id) && DigestFits(digest)
    ensures RecordBytes(BatchBegin(id, tool, path, digest, ms)) <= RecordBytes(BeginTemplate(tool, path))
  {
    TemplateLengths();
    MomentFits(ms);
    var template := BeginTemplate(tool, path);
    BeginLength(id, tool, Some(path), digest, None, ms);
    BeginLength(template.id, tool, Some(path), template.beforeSha256, None, WIDEST_MS);
  }

  /** A settle record is no longer than its template: the three outcomes are spelled equally long. */
  lemma SettleFits(id: Id, outcome: Outcome, digest: Option<string>, ms: U128)
    requires IdFits(id) && DigestFits(digest)
    ensures RecordBytes(BatchSettle(id, outcome, digest, ms)) <= RecordBytes(SettleTemplate())
  {
    MomentFits(ms);
    WidestMoment();
    BatchSettleLength(id, outcome, digest, ms);
    SettleRoomIs();
  }

  lemma BatchSettleLength(id: Id, outcome: Outcome, digest: Option<string>, ms: U128)
    ensures RecordBytes(BatchSettle(id, outcome, digest, ms)) ==
            |Nullable(digest)| + |Quote(Decimal(ms))| + |Quote(id)| + 93
  {
    SettleLength(id, OutcomeText(outcome), digest, None, ms);
    OutcomesEquallyLong(outcome);
  }

  lemma OutcomesEquallyLong(outcome: Outcome)
    ensures |Quote(OutcomeText(outcome))| == 9
  {
    UnescapedQuote(OutcomeText(outcome));
  }

  /** A digest as SHA-256 is rendered: at most 64 hexadecimal digits. */
  predicate HexDigest(digest: Option<string>) {
    digest.Some? ==> |digest.value| <= DIGEST_BYTES && forall i :: 0 <= i < |digest.value| ==> IsDigit(digest.value[i])
  }

  lemma HexDigestFits(digest: Option<string>)
    ensures HexDigest(digest) ==> DigestFits(digest)
  {
    if digest.Some? && HexDigest(digest) {
      PlainQuote(digest.value);
    }
  }

  /** The id is one this program generates. */
  ghost predicate GeneratedId(id: Id) {
    exists ms: U128, pid: U32, number: U64 :: id == RenderId(ms, pid, number)
  }

  lemma GeneratedIdFits(id: Id)
    ensures GeneratedId(id) ==> IdFits(id)
  {
    if ms: U128, pid: U32, number: U64 :| id == RenderId(ms, pid, number) {
      RenderIdFits(ms, pid, number);
    }
  }

  /** No record a batch writes is longer than its template. */
  lemma RecordsFitTemplates(id: Id, tool: string, path: string, outcome: Outcome, digest: Option<string>, ms: U128)
    ensures GeneratedId(id) && HexDigest(digest) ==>
              && RecordBytes(BatchBegin(id, tool, path, digest, ms)) <= RecordBytes(BeginTemplate(tool, path))
              && RecordBytes(BatchSettle(id, outcome, digest, ms)) <= RecordBytes(SettleTemplate())
  {
    GeneratedIdFits(id);
    HexDigestFits(digest);
    if GeneratedId(id) && HexDigest(digest) {
      BeginFits(id, tool, path, digest, ms);
      SettleFits(id, outcome, digest, ms);
    }
  }
}
