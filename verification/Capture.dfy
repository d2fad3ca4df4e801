/** Bounded capture of process output and its redaction, by `process/runner.rs`. Strings here are byte strings,
    one char a byte. */
module Capture {
  import opened Options

  const CAPTURE_HEAD_BYTES: nat := 4 * 1024 * 1024
  const CAPTURE_TAIL_BYTES: nat := 4 * 1024 * 1024
  const MAX_OUTPUT_CHARS: nat := 12_000

  const OMITTED: string := "[... process output omitted ...]"
  const CAPTURE_OMISSION_MARKER: string := "\n" + OMITTED + "\n"

  /** What one turn of the read loop meets. `Stop` is the end of the time a cancelled capture may drain for. */
  datatype Read = Data(bytes: string) | Interrupted | WouldBlock | Failed | Stop

  datatype CapturedStream = CapturedStream(bytes: string, truncated: bool)

  /** The bytes read before the stream ended or the capture stopped; nothing if a read failed first. */
  function Delivered(schedule: seq<Read>): Option<string> {
    if schedule == [] || schedule[0].Stop? || schedule[0] == Data("") then Some("")
    else if schedule[0].Failed? then None
    else
      var rest := Delivered(schedule[1..]);
      if rest.None? then None
      else if schedule[0].Data? then Some(schedule[0].bytes + rest.value)
      else rest
  }

  ghost function After(read: string, rest: Option<string>): Option<string> {
    match rest case None => None case Some(more) => Some(read + more)
  }

  lemma ReadNothing(schedule: seq<Read>)
    ensures Delivered(schedule[0..]) == After("", Delivered(schedule)) && schedule[0..] == schedule
  {
    assert Delivered(schedule).Some? ==> "" + Delivered(schedule).value == Delivered(schedule).value;
  }

  lemma AfterMore(read: string, chunk: string, rest: Option<string>)
    ensures After(read, After(chunk, rest)) == After(read + chunk, rest)
  {
    assert rest.Some? ==> read + (chunk + rest.value) == read + chunk + rest.value;
  }

  function Last(s: string, n: nat): string {
    if |s| <= n then s else s[|s| - n..]
  }

  /** What a capture of the whole stream is. */
  function Captured(stream: string): CapturedStream {
    if |stream| <= CAPTURE_HEAD_BYTES then CapturedStream(stream, false)
    else CapturedStream(stream[..CAPTURE_HEAD_BYTES] + CAPTURE_OMISSION_MARKER
                        + Last(stream[CAPTURE_HEAD_BYTES..], CAPTURE_TAIL_BYTES), true)
  }

  /** Up to four mebibytes as they are; of more than that the first four mebibytes, a marker on a line of its own, and
      as much of the end, but for what the head has already. */
  ghost predicate HeadAndTail(stream: string, captured: CapturedStream) {
    if |stream| <= 4_194_304 then captured == CapturedStream(stream, false)
    else
      var k := if |stream| <= 8_388_608 then 4_194_304 else |stream| - 4_194_304;
      captured == CapturedStream(stream[..4_194_304] + "\n[... process output omitted ...]\n" + stream[k..], true)
  }

  lemma CapturedIs(stream: string)
    ensures HeadAndTail(stream, Captured(stream))
  {
    if |stream| > CAPTURE_HEAD_BYTES {
      SuffixOfRest(stream, CAPTURE_HEAD_BYTES, CAPTURE_TAIL_BYTES);
    }
  }

  lemma SuffixOfRest(stream: string, n: nat, m: nat)
    requires n < |stream|
    ensures Last(stream[n..], m) == stream[if |stream| <= n + m then n else |stream| - m..]
  {
  }

  /** What has come after the head. */
  ghost function Overflow(read: string, headBytes: nat): string {
    if |read| <= headBytes then "" else read[headBytes..]
  }

  ghost predicate Holds(head: string, tail: string, truncated: bool, read: string, headBytes: nat, tailBytes: nat) {
    && head == (if |read| <= headBytes then read else read[..headBytes])
    && tail == Last(Overflow(read, headBytes), tailBytes)
    && truncated == (|read| > headBytes)
  }

  lemma OverflowGrows(read: string, chunk: string, headBytes: nat)
    ensures |read| >= headBytes ==> Overflow(read + chunk, headBytes) == Overflow(read, headBytes) + chunk
    ensures |read| < headBytes && |read + chunk| > headBytes ==>
            Overflow(read + chunk, headBytes) == chunk[headBytes - |read|..]
  {
  }

  lemma HeadGrows(read: string, chunk: string, headBytes: nat)
    ensures |read| < headBytes < |read| + |chunk| ==> (read + chunk)[..headBytes] == read + chunk[..headBytes - |read|]
    ensures |read| >= headBytes ==> (read + chunk)[..headBytes] == read[..headBytes]
  {
  }

  /** One byte into the ring: the oldest one leaves when it is full. */
  lemma RingHolds(overflow: string, byte: char, n: nat)
    requires n > 0
    ensures Last(overflow + [byte], n) ==
            (if |Last(overflow, n)| == n then Last(overflow, n)[1..] else Last(overflow, n)) + [byte]
  {
  }

  /** `capture_stream_with_cancellation`, for every schedule of reads. */
  method CaptureStream(schedule: seq<Read>) returns (r: Option<CapturedStream>)
    ensures r == match Delivered(schedule) case None => None case Some(stream) => Some(Captured(stream))
    ensures r.Some? ==> HeadAndTail(Delivered(schedule).value, r.value)
  {
    var head, tail, truncated := "", "", false;
    var i := 0;
    ghost var read := "";
    ReadNothing(schedule);
    while i < |schedule|
      invariant 0 <= i <= |schedule|
      invariant Holds(head, tail, truncated, read, CAPTURE_HEAD_BYTES, CAPTURE_TAIL_BYTES)
      invariant Delivered(schedule) == After(read, Delivered(schedule[i..]))
    {
      assert schedule[i..][1..] == schedule[i + 1..];
      match schedule[i] {
      case Stop => break;
      case Failed => return None;
      case Interrupted =>
      case WouldBlock =>
      case Data(chunk) =>
        if chunk == "" {
          break;
        }
        head, tail, truncated := Take(head, tail, truncated, chunk, read, CAPTURE_HEAD_BYTES, CAPTURE_TAIL_BYTES);
        AfterMore(read, chunk, Delivered(schedule[i + 1..]));
        read := read + chunk;
      }
      i := i + 1;
    }
    assert read + "" == read;
    if truncated {
      head := head + CAPTURE_OMISSION_MARKER + tail;
    }
    r := Some(CapturedStream(head, truncated));
    CapturedIs(read);
  }

  /** One chunk: fill the head first, then the ring. */
  method Take(head0: string, tail0: string, truncated0: bool, chunk: string, ghost read: string, headBytes: nat,
              tailBytes: nat)
    returns (head: string, tail: string, truncated: bool)
    requires Holds(head0, tail0, truncated0, read, headBytes, tailBytes) && tailBytes > 0
    ensures Holds(head, tail, truncated, read + chunk, headBytes, tailBytes)
  {
    head, tail, truncated := head0, tail0, truncated0;
    var bytes := chunk;
    OverflowGrows(read, chunk, headBytes);
    HeadGrows(read, chunk, headBytes);
    if |head| < headBytes {
      var retained := if headBytes - |head| <= |bytes| then headBytes - |head| else |bytes|;
      head := head + bytes[..retained];
      bytes := bytes[retained..];
    }
    assert Overflow(read + chunk, headBytes) == Overflow(read, headBytes) + bytes;
    if bytes != "" {
      truncated := true;
      tail := PushAll(tail, bytes, Overflow(read, headBytes), tailBytes);
    }
  }

  /** Each byte into the ring in turn. */
  method PushAll(tail0: string, bytes: string, ghost overflow: string, n: nat) returns (tail: string)
    requires tail0 == Last(overflow, n) && n > 0
    ensures tail == Last(overflow + bytes, n)
  {
    tail := tail0;
    assert overflow + bytes[..0] == overflow;
    for i := 0 to |bytes|
      invariant tail == Last(overflow + bytes[..i], n)
    {
      RingHolds(overflow + bytes[..i], bytes[i], n);
      assert overflow + bytes[..i] + [bytes[i]] == overflow + bytes[..i + 1];
      if |tail| == n {
        tail := tail[1..];
      }
      tail := tail + [bytes[i]];
    }
    assert bytes[..|bytes|] == bytes;
  }

  // ---------------------------------------------------------------- lines

  function FirstNewline(s: string): (n: nat)
    ensures n <= |s| && (n < |s| ==> s[n] == '\n')
    ensures forall i :: 0 <= i < n ==> s[i] != '\n'
  {
    if s == "" || s[0] == '\n' then 0
    else
      var n := FirstNewline(s[1..]);
      assert forall i :: 0 < i < n + 1 ==> s[i] == s[1..][i - 1];
      n + 1
  }

  /** One past the last newline, or zero. */
  function LastNewlineEnd(s: string): (n: nat)
    ensures n <= |s| && (n > 0 ==> s[n - 1] == '\n')
    ensures forall i :: n <= i < |s| ==> s[i] != '\n'
  {
    if s == "" || s[|s| - 1] == '\n' then |s| else LastNewlineEnd(s[..|s| - 1])
  }

  function StripCr(line: string): string {
    if line != "" && line[|line| - 1] == '\r' then line[..|line| - 1] else line
  }

  /** `str::lines`. */
  function Lines(s: string): seq<string>
    decreases |s|
  {
    if s == "" then []
    else if FirstNewline(s) == |s| then [s]
    else [StripCr(s[..FirstNewline(s)])] + Lines(s[FirstNewline(s) + 1..])
  }

  /** One line, without its line feed and a carriage return before that, and the lines after it. */
  lemma LinesOneByOne(line: string, rest: string)
    requires '\n' !in line
    ensures Lines(line + "\n" + rest) ==
            [if line != "" && line[|line| - 1] == '\r' then line[..|line| - 1] else line] + Lines(rest)
    ensures line != "" ==> Lines(line) == [line]
  {
    var s := line + "\n" + rest;
    assert forall i :: 0 <= i < |line| ==> s[i] == line[i] && line[i] in line;
    NewlineAt(s, |line|);
    assert s[..|line|] == line && s[|line| + 1..] == rest;
    assert forall i :: 0 <= i < |line| ==> line[i] in line;
  }

  ghost predicate EndsLine(s: string) {
    s == "" || s[|s| - 1] == '\n'
  }

  lemma NewlineAt(s: string, n: nat)
    requires n < |s| && s[n] == '\n' && forall i :: 0 <= i < n ==> s[i] != '\n'
    ensures FirstNewline(s) == n
  {
  }

  /** Cutting after a newline cuts no line. */
  lemma {:induction false} LinesSplit(a: string, b: string)
    requires EndsLine(a)
    ensures Lines(a + b) == Lines(a) + Lines(b)
    decreases |a|
  {
    if a == "" {
      assert a + b == b;
    } else {
      var n := FirstNewline(a);
      NewlineAt(a + b, n);
      assert (a + b)[..n] == a[..n] && (a + b)[n + 1..] == a[n + 1..] + b;
      LinesSplit(a[n + 1..], b);
    }
  }

  lemma OneLine(line: string)
    requires forall i :: 0 <= i < |line| ==> line[i] != '\n'
    ensures Lines(line + "\n") == [StripCr(line)]
  {
    NewlineAt(line + "\n", |line|);
    assert (line + "\n")[..|line|] == line && (line + "\n")[|line| + 1..] == "";
  }

  // ---------------------------------------------------------------- redaction

  /** The parts around the marker, if the marker is where a truncated capture has it. */
  predicate MarkerInPlace(bytes: string) {
    var end := CAPTURE_HEAD_BYTES + |CAPTURE_OMISSION_MARKER|;
    end <= |bytes| && bytes[CAPTURE_HEAD_BYTES..end] == CAPTURE_OMISSION_MARKER
  }

  function CompleteHead(head: string): string {
    head[..LastNewlineEnd(head)]
  }

  function CompleteTail(tail: string): string {
    tail[if FirstNewline(tail) == |tail| then |tail| else FirstNewline(tail) + 1..]
  }

  /** The text handed on to be redacted line by line; `None` for a malformed capture. */
  function ToRedact(captured: CapturedStream): Option<string> {
    if !captured.truncated then Some(captured.bytes)
    else if !MarkerInPlace(captured.bytes) then None
    else
      var head := captured.bytes[..CAPTURE_HEAD_BYTES];
      var tail := captured.bytes[CAPTURE_HEAD_BYTES + |CAPTURE_OMISSION_MARKER|..];
      Some(CompleteHead(head) + CAPTURE_OMISSION_MARKER + CompleteTail(tail))
  }

  /** Cutting after a line end cuts no line. */
  ghost predicate Additive(lines: string -> seq<string>) {
    forall a, b :: EndsLine(a) ==> lines(a + b) == lines(a) + lines(b)
  }

  lemma LinesAreAdditive()
    ensures Additive(Lines)
  {
    forall a, b | EndsLine(a) ensures Lines(a + b) == Lines(a) + Lines(b) {
      LinesSplit(a, b);
    }
  }

  lemma MarkerLines(lines: string -> seq<string>, omitted: string, marker: string)
    requires Additive(lines) && marker == "\n" + omitted + "\n"
    ensures lines(marker) == lines("\n") + lines(omitted + "\n")
  {
    assert marker == "\n" + (omitted + "\n");
  }

  lemma AroundMarker(lines: string -> seq<string>, head: string, marker: string, tail: string)
    requires Additive(lines) && EndsLine(head) && EndsLine(marker)
    ensures lines(head + marker + tail) == lines(head) + lines(marker) + lines(tail)
  {
    assert EndsLine(head + marker);
  }

  /** The lines of a stream with its middle taken out between two line ends. */
  lemma LinesAround(lines: string -> seq<string>, head: string, middle: string, tail: string)
    requires Additive(lines) && lines("") == [] && EndsLine(head) && (tail == "" || EndsLine(middle))
    ensures exists a, b :: 0 <= a <= b <= |lines(head + middle + tail)|
                           && lines(head) == lines(head + middle + tail)[..a]
                              && lines(tail) == lines(head + middle + tail)[b..]
  {
    var all := lines(head + middle + tail);
    assert lines(head + middle) == lines(head) + lines(middle);
    if tail == "" {
      assert head + middle + tail == head + middle;
    } else {
      assert EndsLine(head + middle);
    }
    assert lines(head) == all[..|lines(head)|] && lines(tail) == all[|all| - |lines(tail)|..];
  }

  lemma CutOut(stream: string, tail: string, h: nat, k: nat, p: nat) returns (middle: string)
    requires h <= p && |tail| <= |stream| - p && tail == stream[|stream| - |tail|..] && k <= |tail|
    ensures stream == stream[..h] + middle + tail[k..]
    ensures k > 0 ==> middle != "" && middle[|middle| - 1] == tail[k - 1]
  {
    middle := stream[h..|stream| - |tail| + k];
  }

  ghost predicate Excerpt(lines: seq<string>, all: seq<string>) {
    exists a, b :: 0 <= a <= b <= |all| && lines == all[..a] + ["", OMITTED] + all[b..]
  }

  lemma CutLines(lines: string -> seq<string>, stream: string, head: string, middle: string, tail: string,
                 marker: string)
    requires Additive(lines) && lines("") == [] && lines(marker) == ["", OMITTED] && EndsLine(marker)
    requires stream == head + middle + tail && EndsLine(head) && (tail == "" || EndsLine(middle))
    ensures Excerpt(lines(head + marker + tail), lines(stream))
  {
    LinesAround(lines, head, middle, tail);
    AroundMarker(lines, head, marker, tail);
  }

  lemma LinesOfWrapped(omitted: string, marker: string)
    requires forall i :: 0 <= i < |omitted| ==> omitted[i] != '\n' && omitted[i] != '\r'
    requires marker == "\n" + omitted + "\n"
    ensures Lines(marker) == ["", omitted] && EndsLine(marker)
  {
    LinesAreAdditive();
    MarkerLines(Lines, omitted, marker);
    OneLine("");
    OneLine(omitted);
  }

  /** The stream as what is kept of its head, a middle that ends a line, and what is kept of its tail. */
  lemma PartsOf(stream: string, head: string, tail: string) returns (middle: string)
    requires |head| + |tail| <= |stream| && head == stream[..|head|] && tail == stream[|stream| - |tail|..]
    ensures stream == CompleteHead(head) + middle + CompleteTail(tail)
    ensures EndsLine(CompleteHead(head)) && (CompleteTail(tail) == "" || EndsLine(middle))
  {
    var h := LastNewlineEnd(head);
    var k := |tail| - |CompleteTail(tail)|;
    middle := CutOut(stream, tail, h, k, |head|);
    assert stream[..h] == CompleteHead(head) && tail[k..] == CompleteTail(tail);
  }

  lemma TruncatedParts(lines: string -> seq<string>, stream: string, head: string, tail: string, marker: string)
    requires |head| + |tail| <= |stream| && head == stream[..|head|] && tail == stream[|stream| - |tail|..]
    requires Additive(lines) && lines("") == [] && lines(marker) == ["", OMITTED] && EndsLine(marker)
    ensures Excerpt(lines(CompleteHead(head) + marker + CompleteTail(tail)), lines(stream))
  {
    var middle := PartsOf(stream, head, tail);
    CutLines(lines, stream, CompleteHead(head), middle, CompleteTail(tail), marker);
  }

  /** No capture is malformed. What goes on to be redacted are all lines of the stream, or, around the marker's
      two lines, a run of its first and a run of its last lines: never a part of a line. */
  lemma OnlyWholeLinesAreRedacted(stream: string)
    ensures ToRedact(Captured(stream)).Some?
    ensures !Captured(stream).truncated ==> ToRedact(Captured(stream)).value == stream
    ensures Captured(stream).truncated ==> Excerpt(Lines(ToRedact(Captured(stream)).value), Lines(stream))
  {
    if |stream| > CAPTURE_HEAD_BYTES {
      var head, tail := stream[..CAPTURE_HEAD_BYTES], Last(stream[CAPTURE_HEAD_BYTES..], CAPTURE_TAIL_BYTES);
      InPlace(head, CAPTURE_OMISSION_MARKER, tail);
      LinesOfWrapped(OMITTED, CAPTURE_OMISSION_MARKER);
      LinesAreAdditive();
      TruncatedParts(Lines, stream, head, tail, CAPTURE_OMISSION_MARKER);
    }
  }

  lemma InPlace(head: string, marker: string, tail: string)
    ensures var bytes := head + marker + tail;
            bytes[..|head|] == head && bytes[|head|..|head| + |marker|] == marker && bytes[|head| + |marker|..] == tail
  {
  }

  // ---------------------------------------------------------------- the text shown

  const SHORT_MARKER: string := "\n[... output omitted ...]\n"

  /** As much as fits beside the marker is kept, half of it from each end, the odd one from the back. */
  predicate BothEnds(text: string, maxChars: nat, h: nat, t: nat) {
    && h <= t <= |text| && 0 <= |text| - t - h <= 1
    && h + (|text| - t) == if maxChars >= |SHORT_MARKER| then maxChars - |SHORT_MARKER| else 0
  }

  /** `truncate_head_tail`: short text as it is; otherwise both ends around the marker. */
  function TruncateHeadTail(text: string, maxChars: nat): (r: string)
    ensures |text| <= maxChars ==> r == text
    ensures |text| > maxChars >= |SHORT_MARKER| ==> |r| == maxChars
    ensures |text| > maxChars ==> exists h, t ::
            0 <= h <= t <= |text| && BothEnds(text, maxChars, h, t)
            && r == text[..h] + "\n[... output omitted ...]\n" + text[t..]
  {
    if |text| <= maxChars then text
    else
      var retained := if maxChars >= |SHORT_MARKER| then maxChars - |SHORT_MARKER| else 0;
      var h := retained / 2;
      var t := |text| - (retained - h);
      assert BothEnds(text, maxChars, h, t);
      text[..h] + SHORT_MARKER + text[t..]
  }

  function JoinLines(lines: seq<string>): string {
    if lines == [] then "" else if |lines| == 1 then lines[0]
      else JoinLines(lines[..|lines| - 1]) + "\n" + lines[|lines| - 1]
  }

  function EachLine(redact: string -> string, lines: seq<string>): (r: seq<string>)
    ensures |r| == |lines| && forall i :: 0 <= i < |lines| ==> r[i] == redact(lines[i])
  {
    if lines == [] then [] else EachLine(redact, lines[..|lines| - 1]) + [redact(lines[|lines| - 1])]
  }

  /** The loop over the lines. */
  method RedactLines(lines: seq<string>, redact: string -> string) returns (redacted: seq<string>)
    ensures redacted == EachLine(redact, lines)
  {
    redacted := [];
    for i := 0 to |lines|
      invariant redacted == EachLine(redact, lines[..i])
    {
      assert lines[..i + 1][..i] == lines[..i];
      redacted := redacted + [redact(lines[i])];
    }
    assert lines[..|lines|] == lines;
  }

  /** `redact_captured_output`, for whatever `redact_line` does to one line. */
  method RedactCapturedOutput(captured: CapturedStream, redact: string -> string) returns (text: string)
    ensures ToRedact(captured).Some? ==>
              text == TruncateHeadTail(JoinLines(EachLine(redact, Lines(ToRedact(captured).value))), MAX_OUTPUT_CHARS)
    ensures ToRedact(captured).None? ==> text == "[redacted malformed truncated process output]"
  {
    var complete := ToRedact(captured);
    if complete.None? {
      return "[redacted malformed truncated process output]";
    }
    var redacted := RedactLines(Lines(complete.value), redact);
    text := TruncateHeadTail(JoinLines(redacted), MAX_OUTPUT_CHARS);
  }

  // ---------------------------------------------------------------- from the stream to the text

  lemma EachOfConcat(redact: string -> string, a: seq<string>, b: seq<string>)
    ensures EachLine(redact, a + b) == EachLine(redact, a) + EachLine(redact, b)
  {
  }

  /** The redacted lines shown for a stream: a run of its first lines, a run of its last, and between them the two
      lines of the marker if the capture was cut. */
  function ShownLines(redact: string -> string, all: seq<string>, a: nat, b: nat, cut: bool): seq<string>
    requires a <= b <= |all|
  {
    EachLine(redact, all[..a]) + (if cut then [redact(""), redact(OMITTED)] else []) + EachLine(redact, all[b..])
  }

  ghost predicate Shows(text: string, stream: string, redact: string -> string, a: nat, b: nat) {
    && a <= b <= |Lines(stream)| && (|stream| <= CAPTURE_HEAD_BYTES ==> a == b)
    && text == TruncateHeadTail(JoinLines(ShownLines(redact, Lines(stream), a, b, |stream| > CAPTURE_HEAD_BYTES)),
                                MAX_OUTPUT_CHARS)
  }

  lemma MarkedAreShown(redact: string -> string, first: seq<string>, marker: seq<string>, last: seq<string>)
    requires marker == ["", OMITTED]
    ensures EachLine(redact, first + marker + last) ==
            EachLine(redact, first) + [redact(""), redact(OMITTED)] + EachLine(redact, last)
  {
    EachOfConcat(redact, first, marker);
    EachOfConcat(redact, first + marker, last);
    assert EachLine(redact, marker) == [redact(""), redact(OMITTED)];
  }

  lemma ExcerptIsShown(redact: string -> string, lines: seq<string>, all: seq<string>) returns (a: nat, b: nat)
    requires Excerpt(lines, all)
    ensures a <= b <= |all| && EachLine(redact, lines) == ShownLines(redact, all, a, b, true)
  {
    a, b :| 0 <= a <= b <= |all| && lines == all[..a] + ["", OMITTED] + all[b..];
    MarkedAreShown(redact, all[..a], ["", OMITTED], all[b..]);
  }

  lemma WholeIsShown(redact: string -> string, all: seq<string>)
    ensures EachLine(redact, all) == ShownLines(redact, all, |all|, |all|, false)
  {
    assert all[..|all|] == all && all[|all|..] == [];
  }

  /** Capturing and redacting a process's output: every line shown is the redaction of one whole line of what the
      process wrote, in order, or of the marker. */
  method CapturedOutput(schedule: seq<Read>, redact: string -> string) returns (text: Option<string>)
    ensures text.Some? <==> Delivered(schedule).Some?
    ensures text.Some? ==> |text.value| <= 12_000
    ensures text.Some? ==> exists a, b :: Shows(text.value, Delivered(schedule).value, redact, a, b)
  {
    var captured := CaptureStream(schedule);
    if captured.None? {
      return None;
    }
    var shown := RedactCapturedOutput(captured.value, redact);
    ghost var stream := Delivered(schedule).value;
    OnlyWholeLinesAreRedacted(stream);
    ghost var lines := Lines(ToRedact(captured.value).value);
    if |stream| > CAPTURE_HEAD_BYTES {
      ghost var a, b := ExcerptIsShown(redact, lines, Lines(stream));
      assert Shows(shown, stream, redact, a, b);
    } else {
      WholeIsShown(redact, Lines(stream));
      assert Shows(shown, stream, redact, |Lines(stream)|, |Lines(stream)|);
    }
    text := Some(shown);
  }

  /** What stands between the newlines of a text. */
  function Segments(text: string): seq<string>
    decreases |text|
  {
    if FirstNewline(text) == |text| then [text]
    else [text[..FirstNewline(text)]] + Segments(text[FirstNewline(text) + 1..])
  }

  predicate OneLineOnly(line: string) {
    forall i :: 0 <= i < |line| ==> line[i] != '\n'
  }

  lemma {:induction false} JoinFromFront(line: string, lines: seq<string>)
    requires lines != []
    ensures JoinLines([line] + lines) == line + "\n" + JoinLines(lines)
  {
    var all := [line] + lines;
    if |lines| == 1 {
      assert all[..1] == [line];
    } else {
      JoinFromFront(line, lines[..|lines| - 1]);
      assert all[..|all| - 1] == [line] + lines[..|lines| - 1];
    }
  }

  lemma FirstSegment(line: string, rest: string)
    requires OneLineOnly(line)
    ensures Segments(line + "\n" + rest) == [line] + Segments(rest)
  {
    var text := line + "\n" + rest;
    NewlineAt(text, |line|);
    assert text[..|line|] == line && text[|line| + 1..] == rest;
  }

  /** Cutting joined lines at newlines gives the lines back. */
  lemma {:induction false} SegmentsOfJoin(lines: seq<string>)
    requires lines != [] && forall line :: line in lines ==> OneLineOnly(line)
    ensures Segments(JoinLines(lines)) == lines
  {
    assert lines[0] in lines;
    if |lines| == 1 {
      assert FirstNewline(lines[0]) == |lines[0]|;
    } else {
      assert lines == [lines[0]] + lines[1..];
      SegmentsOfJoin(lines[1..]);
      JoinFromFront(lines[0], lines[1..]);
      FirstSegment(lines[0], JoinLines(lines[1..]));
    }
  }

  lemma {:induction false} LinesAreSingle(text: string)
    ensures forall line :: line in Lines(text) ==> OneLineOnly(line)
    decreases |text|
  {
    if text != "" && FirstNewline(text) < |text| {
      LinesAreSingle(text[FirstNewline(text) + 1..]);
    }
  }

  lemma ShownAreSingle(redact: string -> string, all: seq<string>, a: nat, b: nat, cut: bool)
    requires a <= b <= |all| && forall line :: line in all ==> OneLineOnly(line)
    requires forall line :: OneLineOnly(line) ==> OneLineOnly(redact(line))
    ensures forall line :: line in ShownLines(redact, all, a, b, cut) ==> OneLineOnly(line)
  {
    assert OneLineOnly("") && OneLineOnly(OMITTED);
    forall i | 0 <= i < a ensures OneLineOnly(EachLine(redact, all[..a])[i]) {
      assert all[i] in all;
    }
    forall i | 0 <= i < |all| - b ensures OneLineOnly(EachLine(redact, all[b..])[i]) {
      assert all[b + i] in all;
    }
  }

  /** A text that was not shortened consists of exactly those redactions, line by line, if a redaction never
      spreads over several lines. */
  lemma ShownLineByLine(text: string, stream: string, redact: string -> string, a: nat, b: nat)
    requires Shows(text, stream, redact, a, b) && |text| < MAX_OUTPUT_CHARS
    requires forall line :: OneLineOnly(line) ==> OneLineOnly(redact(line))
    ensures var shown := ShownLines(redact, Lines(stream), a, b, |stream| > CAPTURE_HEAD_BYTES);
            shown != [] ==> Segments(text) == shown
  {
    var shown := ShownLines(redact, Lines(stream), a, b, |stream| > CAPTURE_HEAD_BYTES);
    LinesAreSingle(stream);
    ShownAreSingle(redact, Lines(stream), a, b, |stream| > CAPTURE_HEAD_BYTES);
    if shown != [] {
      assert text == JoinLines(shown);
      SegmentsOfJoin(shown);
    }
  }
}
