/** The journal as text: one JSON object a line, and what `all_from_path` reads from it. */
module ReceiptText {
  import opened Options
  import opened Numerals
  import opened Json
  import opened Receipt
  import opened ReceiptBudget
  import DiffRender

  // ---------------------------------------------------------------- reading a line

  /** `optional_text`: a member's text, unless it is missing or null. */
  function Text(fields: seq<Field>, key: string): Option<string> {
    if fields == [] then None
    else if fields[|fields| - 1].key == key then fields[|fields| - 1].value
    else Text(fields[..|fields| - 1], key)
  }

  predicate IsMoment(digits: string) {
    && digits != "" && (forall i :: 0 <= i < |digits| ==> '0' <= digits[i] <= '9')
    && Value(digits, 10) < TWO_TO_128
  }

  /** `parse_ms`, with zero for whatever is not a number. */
  function ParseMoment(text: Option<string>): (ms: nat)
    ensures ms < TWO_TO_128
  {
    if text.None? then 0
    else
      var digits := if text.value != "" && text.value[0] == '+' then text.value[1..] else text.value;
      if IsMoment(digits) then Value(digits, 10) else 0
  }

  /** One line of `all_from_path`'s loop. */
  function ParseLine(line: string): (r: Record)
    ensures r.Noise? ==> r.bytes == |line| + 1
  {
    match ReadObject(line)
    case None => Noise(|line| + 1)
    case Some(fields) => Told(fields, |line| + 1)
  }

  /** The record that members tell; `bytes` is the length of their line. */
  function Told(fields: seq<Field>, bytes: nat): Record {
    var id, kind, at := Text(fields, "id"), Text(fields, "record"), Some(ParseMoment(Text(fields, "at_ms")));
    if id.None? then Noise(bytes)
    else if kind == Some("begin") then
      Begin(id.value, Text(fields, "tool"), Text(fields, "path"), Text(fields, "before_sha256"),
            Text(fields, "before_git_head"), at)
    else if kind == Some("settle") then
      Settle(id.value, Text(fields, "outcome"), Text(fields, "after_sha256"), Text(fields, "after_git_head"), at)
    else Noise(bytes)
  }

  lemma ObjectTells(fields: seq<Field>)
    requires forall f :: f in fields ==> IsBytesField(f)
    ensures ParseLine(Object(fields)) == Told(fields, |Object(fields)| + 1)
  {
    ObjectReads(fields);
  }

  // ---------------------------------------------------------------- a line reads back

  predicate IsBytesText(text: Option<string>) {
    text.Some? ==> IsBytes(text.value)
  }

  /** A record as this program writes it: every text made of bytes, with a tool or an outcome, and a moment. */
  predicate Writable(record: Record) {
    match record
    case Begin(id, tool, path, beforeSha256, beforeGitHead, atMs) =>
      && IsBytes(id) && tool.Some? && IsBytesText(tool) && IsBytesText(path) && IsBytesText(beforeSha256)
      && IsBytesText(beforeGitHead) && atMs.Some? && atMs.value < TWO_TO_128
    case Settle(id, outcome, afterSha256, afterGitHead, atMs) =>
      && IsBytes(id) && outcome.Some? && IsBytesText(outcome) && IsBytesText(afterSha256) && IsBytesText(afterGitHead)
      && atMs.Some? && atMs.value < TWO_TO_128
    case Noise(_) => false
  }

  lemma MomentReads(ms: nat)
    requires ms < TWO_TO_128
    ensures ParseMoment(Some(Decimal(ms))) == ms && IsBytes(Decimal(ms))
  {
    DecimalSpells(ms);
  }

  lemma {:induction false} TextAt(fields: seq<Field>, i: nat)
    requires i < |fields| && forall j :: i < j < |fields| ==> fields[j].key != fields[i].key
    ensures Text(fields, fields[i].key) == fields[i].value
  {
    if i < |fields| - 1 {
      TextAt(fields[..|fields| - 1], i);
    }
  }

  lemma TextsOf(fields: seq<Field>)
    requires forall i, j :: 0 <= i < j < |fields| ==> fields[j].key != fields[i].key
    ensures forall i :: 0 <= i < |fields| ==> Text(fields, fields[i].key) == fields[i].value
  {
    forall i | 0 <= i < |fields| ensures Text(fields, fields[i].key) == fields[i].value {
      TextAt(fields, i);
    }
  }

  lemma BeginIsTold(id: Id, tool: string, path: Option<string>, sha256: Option<string>, gitHead: Option<string>,
                    ms: nat, bytes: nat)
    requires ms < TWO_TO_128
    ensures Told(BeginFields(id, tool, path, sha256, gitHead, ms), bytes) ==
            Begin(id, Some(tool), path, sha256, gitHead, Some(ms))
  {
    var fields := BeginFields(id, tool, path, sha256, gitHead, ms);
    MomentReads(ms);
    TextsOf(fields);
    assert fields[0].key == "at_ms" && fields[1].key == "before_git_head" && fields[2].key == "before_sha256"
           && fields[3].key == "id" && fields[4].key == "path" && fields[5].key == "record" && fields[6].key == "tool";
  }

  lemma SettleIsTold(id: Id, outcome: string, sha256: Option<string>, gitHead: Option<string>, ms: nat, bytes: nat)
    requires ms < TWO_TO_128
    ensures Told(SettleFields(id, outcome, sha256, gitHead, ms), bytes) ==
            Settle(id, Some(outcome), sha256, gitHead, Some(ms))
  {
    var fields := SettleFields(id, outcome, sha256, gitHead, ms);
    MomentReads(ms);
    TextsOf(fields);
    assert fields[0].key == "after_git_head" && fields[1].key == "after_sha256" && fields[2].key == "at_ms"
           && fields[3].key == "id" && fields[4].key == "outcome" && fields[5].key == "record";
  }

  lemma BytesOfUnescaped(s: string)
    requires Unescaped(s)
    ensures IsBytes(s)
  {
  }

  lemma BeginIsBytes(id: Id, tool: string, path: Option<string>, sha256: Option<string>, gitHead: Option<string>,
                     ms: nat)
    requires IsBytes(id) && IsBytes(tool) && IsBytesText(path) && IsBytesText(sha256) && IsBytesText(gitHead)
    requires ms < TWO_TO_128
    ensures forall f :: f in BeginFields(id, tool, path, sha256, gitHead, ms) ==> IsBytesField(f)
  {
    CommonKeys();
    BeginKeys();
    BytesOfUnescaped("begin");
    MomentReads(ms);
    var fields := BeginFields(id, tool, path, sha256, gitHead, ms);
    forall f | f in fields ensures IsBytesField(f) {
      BytesOfUnescaped(f.key);
    }
  }

  lemma SettleIsBytes(id: Id, outcome: string, sha256: Option<string>, gitHead: Option<string>, ms: nat)
    requires IsBytes(id) && IsBytes(outcome) && IsBytesText(sha256) && IsBytesText(gitHead) && ms < TWO_TO_128
    ensures forall f :: f in SettleFields(id, outcome, sha256, gitHead, ms) ==> IsBytesField(f)
  {
    CommonKeys();
    SettleKeys();
    BytesOfUnescaped("settle");
    MomentReads(ms);
    var fields := SettleFields(id, outcome, sha256, gitHead, ms);
    forall f | f in fields ensures IsBytesField(f) {
      BytesOfUnescaped(f.key);
    }
  }

  lemma BeginReadsBack(id: Id, tool: string, path: Option<string>, sha256: Option<string>, gitHead: Option<string>,
                       ms: nat)
    requires IsBytes(id) && IsBytes(tool) && IsBytesText(path) && IsBytesText(sha256) && IsBytesText(gitHead)
    requires ms < TWO_TO_128
    ensures ParseLine(Object(BeginFields(id, tool, path, sha256, gitHead, ms))) ==
            Begin(id, Some(tool), path, sha256, gitHead, Some(ms))
  {
    var fields := BeginFields(id, tool, path, sha256, gitHead, ms);
    BeginIsBytes(id, tool, path, sha256, gitHead, ms);
    ObjectTells(fields);
    BeginIsTold(id, tool, path, sha256, gitHead, ms, |Object(fields)| + 1);
  }

  lemma SettleReadsBack(id: Id, outcome: string, sha256: Option<string>, gitHead: Option<string>, ms: nat)
    requires IsBytes(id) && IsBytes(outcome) && IsBytesText(sha256) && IsBytesText(gitHead) && ms < TWO_TO_128
    ensures ParseLine(Object(SettleFields(id, outcome, sha256, gitHead, ms))) ==
            Settle(id, Some(outcome), sha256, gitHead, Some(ms))
  {
    var fields := SettleFields(id, outcome, sha256, gitHead, ms);
    SettleIsBytes(id, outcome, sha256, gitHead, ms);
    ObjectTells(fields);
    SettleIsTold(id, outcome, sha256, gitHead, ms, |Object(fields)| + 1);
  }

  /** Reading a line gives the record it was written for. */
  lemma LineReadsBack(record: Record)
    requires Writable(record)
    ensures ParseLine(Line(record)) == record
  {
    match record
    case Begin(id, tool, path, sha256, gitHead, atMs) =>
      BeginReadsBack(id, tool.value, path, sha256, gitHead, atMs.value);
    case Settle(id, outcome, sha256, gitHead, atMs) =>
      SettleReadsBack(id, outcome.value, sha256, gitHead, atMs.value);
  }

  /** What readers of the journal find as the outcome. */
  lemma OutcomesRead(id: Id, outcome: Outcome, digest: Option<string>, ms: U128)
    requires IsBytes(id) && IsBytesText(digest)
    ensures ParseLine(Line(BatchSettle(id, outcome, digest, ms))) ==
            Settle(id, Some(if outcome.Applied? then "applied" else if outcome.Refused? then "refused" else "unknown"),
                   digest, None, Some(ms))
  {
    LineReadsBack(BatchSettle(id, outcome, digest, ms));
  }

  // ---------------------------------------------------------------- the file reads back

  /** The text one record is written as; lines of other origin are not written. */
  function LineText(record: Record): string {
    if record.Noise? then "" else Line(record)
  }

  function FileLines(write: Record -> string, journal: Journal): seq<string> {
    if journal == [] then []
    else FileLines(write, journal[..|journal| - 1]) + [write(journal[|journal| - 1]) + "\n"]
  }

  /** What appending the records one by one leaves in the file. */
  function FileText(journal: Journal): string {
    DiffRender.Join(FileLines(LineText, journal))
  }

  /** Line by line, newlines dropped. */
  function ParseLines(parse: string -> Record, lines: seq<string>): Journal {
    if lines == [] then []
    else
      var last := lines[|lines| - 1];
      var line := if last != "" && last[|last| - 1] == '\n' then last[..|last| - 1] else last;
      ParseLines(parse, lines[..|lines| - 1]) + [parse(line)]
  }

  function ReadFile(text: string): Journal {
    ParseLines(ParseLine, DiffRender.SplitLines(text))
  }

  lemma OneMoreLine(parse: string -> Record, lines: seq<string>, line: string)
    ensures ParseLines(parse, lines + [line + "\n"]) == ParseLines(parse, lines) + [parse(line)]
  {
    assert (lines + [line + "\n"])[..|lines|] == lines && (line + "\n")[..|line|] == line;
  }

  lemma {:induction false} LinesParse(parse: string -> Record, write: Record -> string, journal: Journal)
    requires forall r :: r in journal ==> parse(write(r)) == r
    ensures ParseLines(parse, FileLines(write, journal)) == journal
  {
    if journal != [] {
      var front, last := journal[..|journal| - 1], journal[|journal| - 1];
      LinesParse(parse, write, front);
      OneMoreLine(parse, FileLines(write, front), write(last));
      assert front + [last] == journal && last in journal;
    }
  }

  lemma {:induction false} LinesAreShaped(write: Record -> string, journal: Journal)
    requires forall r :: r in journal ==> OneLine(write(r))
    ensures forall l :: l in FileLines(write, journal) ==> DiffRender.LineShaped(l) && DiffRender.Terminated(l)
  {
    if journal != [] {
      LinesAreShaped(write, journal[..|journal| - 1]);
      assert journal[|journal| - 1] in journal;
    }
  }

  /** A journal file as this program writes it reads back as the records appended, in order. */
  lemma FileReadsBack(journal: Journal)
    requires forall r :: r in journal ==> Writable(r)
    ensures ReadFile(FileText(journal)) == journal
  {
    forall r | r in journal ensures OneLine(LineText(r)) && ParseLine(LineText(r)) == r {
      ObjectIsOneLine(Fields(r));
      LineReadsBack(r);
    }
    LinesAreShaped(LineText, journal);
    DiffRender.SplitOfJoin(FileLines(LineText, journal));
    LinesParse(ParseLine, LineText, journal);
  }

  /** The budget counts the bytes of that file. */
  lemma {:induction false} BytesAreCounted(journal: Journal)
    requires forall r :: r in journal ==> !r.Noise?
    ensures |FileText(journal)| == JournalBytes(journal)
  {
    if journal != [] {
      var front, last := journal[..|journal| - 1], journal[|journal| - 1];
      assert last in journal && forall r :: r in front ==> r in journal;
      BytesAreCounted(front);
      DiffRender.JoinAppend(FileLines(LineText, front), Line(last) + "\n");
    }
  }
}
