/** The rendering half of `patch/diff.rs`: splitting into lines, writing one hunk that covers
    both files, and the exact-replacement preview that feeds it. */
module DiffRender {
  import opened Diff
  import opened Numerals

  // ---------------------------------------------------------------- lines

  /** Where the first line ends: just past the first newline, or at the end of the text. */
  function LineEnd(text: string): (n: nat)
    ensures n <= |text| && (text != "" ==> n > 0)
    ensures forall i :: 0 <= i < n - 1 ==> text[i] != '\n'
    ensures n < |text| ==> text[n - 1] == '\n'
  {
    if text == "" then 0 else if text[0] == '\n' then 1 else LineEnd(text[1..]) + 1
  }

  /** `split_lines`: `split_inclusive('\n')`, so every line keeps its newline. */
  function SplitLines(text: string): seq<Line>
    decreases |text|
  {
    if text == "" then [] else [text[..LineEnd(text)]] + SplitLines(text[LineEnd(text)..])
  }

  function Join(lines: seq<Line>): string {
    if lines == [] then "" else lines[0] + Join(lines[1..])
  }

  predicate Terminated(line: Line) {
    line != "" && line[|line| - 1] == '\n'
  }

  /** Nonempty, with a newline at most in last position. */
  ghost predicate LineShaped(line: Line) {
    line != "" && forall i :: 0 <= i < |line| - 1 ==> line[i] != '\n'
  }

  ghost predicate WellSplit(lines: seq<Line>) {
    forall i :: 0 <= i < |lines| ==> LineShaped(lines[i]) && (i < |lines| - 1 ==> Terminated(lines[i]))
  }

  lemma OneMoreLine(line: Line, lines: seq<Line>)
    requires LineShaped(line) && WellSplit(lines) && (lines != [] ==> Terminated(line))
    ensures WellSplit([line] + lines)
  {
    var all := [line] + lines;
    forall i | 0 < i < |all| ensures LineShaped(all[i]) && (i < |all| - 1 ==> Terminated(all[i])) {
      assert all[i] == lines[i - 1];
    }
  }

  lemma {:induction false} SplitIsWellSplit(text: string)
    ensures WellSplit(SplitLines(text))
    decreases |text|
  {
    if text != "" {
      var n := LineEnd(text);
      SplitIsWellSplit(text[n..]);
      assert n == |text| ==> SplitLines(text[n..]) == [];
      OneMoreLine(text[..n], SplitLines(text[n..]));
    }
  }

  /** Concatenating the lines gives the text back. */
  lemma {:induction false} JoinOfSplit(text: string)
    ensures Join(SplitLines(text)) == text
    decreases |text|
  {
    if text != "" {
      var n := LineEnd(text);
      JoinOfSplit(text[n..]);
      assert text == text[..n] + text[n..];
    }
  }

  lemma LineEndOfConcat(line: Line, rest: string)
    requires LineShaped(line) && (Terminated(line) || rest == "")
    ensures LineEnd(line + rest) == |line|
  {
    var text := line + rest;
    assert forall i :: 0 <= i < |line| ==> text[i] == line[i];
  }

  /** Splitting is the only well-formed way to cut a text: it undoes concatenation. */
  lemma {:induction false} SplitOfJoin(lines: seq<Line>)
    requires WellSplit(lines)
    ensures SplitLines(Join(lines)) == lines
  {
    if lines != [] {
      SplitOfJoin(lines[1..]);
      var rest := Join(lines[1..]);
      if |lines| == 1 {
        assert lines[1..] == [];
      }
      LineEndOfConcat(lines[0], rest);
      assert (lines[0] + rest)[..|lines[0]|] == lines[0] && (lines[0] + rest)[|lines[0]|..] == rest;
    }
  }

  /** `split_lines` gives the one sequence of lines that is well formed and reads back as the text. */
  lemma SplitLinesIsUnique(text: string, lines: seq<Line>)
    ensures SplitLines(text) == lines <==> WellSplit(lines) && Join(lines) == text
  {
    SplitIsWellSplit(text);
    if WellSplit(lines) {
      SplitOfJoin(lines);
    }
  }

  // ---------------------------------------------------------------- rendering

  function WithNewline(line: Line): Line {
    if Terminated(line) then line else line + "\n"
  }

  function Prefix(op: Operation): char {
    match op case Unchanged(_) => ' ' case Removed(_) => '-' case Added(_) => '+'
  }

  /** What `push_diff_line` appends for one operation. */
  function Rendered(op: Operation): Line {
    [Prefix(op)] + WithNewline(op.line)
  }

  function RenderedLines(script: Script): seq<Line> {
    seq(|script|, i requires 0 <= i < |script| => Rendered(script[i]))
  }

  function Header(path: string, beforeCount: nat, afterCount: nat): string {
    "--- " + path + "\n+++ " + path + "\n@@ -1," + Decimal(beforeCount) + " +1," + Decimal(afterCount) + " @@\n"
  }

  lemma {:induction false} JoinAppend(lines: seq<Line>, line: Line)
    ensures Join(lines + [line]) == Join(lines) + line
  {
    if lines == [] {
      assert lines + [line] == [line];
    } else {
      JoinAppend(lines[1..], line);
      assert (lines + [line])[1..] == lines[1..] + [line];
    }
  }

  lemma RenderStep(script: Script, i: nat)
    requires i < |script|
    ensures Join(RenderedLines(script[..i + 1])) == Join(RenderedLines(script[..i])) + Rendered(script[i])
  {
    assert RenderedLines(script[..i + 1]) == RenderedLines(script[..i]) + [Rendered(script[i])];
    JoinAppend(RenderedLines(script[..i]), Rendered(script[i]));
  }

  lemma Regroup(a: string, b: string, c: string)
    ensures a + b + c == a + (b + c)
  {
  }

  /** The loop over the script: one pushed line per operation. */
  method PushScript(output: string, script: Script) returns (grown: string)
    ensures grown == output + Join(RenderedLines(script))
  {
    grown := output;
    assert script[..0] == [] && output + "" == output;
    for i := 0 to |script|
      invariant grown == output + Join(RenderedLines(script[..i]))
    {
      RenderStep(script, i);
      Regroup(output, Join(RenderedLines(script[..i])), Rendered(script[i]));
      grown := grown + Rendered(script[i]);
    }
    assert script[..|script|] == script;
  }

  /** A header whose counts are the line counts of both texts, then some shortest script between them. */
  ghost predicate ShowsDiff(shown: string, path: string, before: string, after: string) {
    exists script ::
      && IsShortest(script, SplitLines(before), SplitLines(after)) && RemovalsFirst(script)
      && shown == Header(path, |SplitLines(before)|, |SplitLines(after)|) + Join(RenderedLines(script))
  }

  // ---------------------------------------------------------------- decoding

  /** Read a hunk body back: drop the lines of one sign, and the sign of every other line. */
  function Recover(lines: seq<Line>, dropped: char): seq<Line> {
    if lines == [] then [] else
    var rest, last := Recover(lines[..|lines| - 1], dropped), lines[|lines| - 1];
    if last == "" || last[0] == dropped then rest else rest + [last[1..]]
  }

  function Terminate(lines: seq<Line>): seq<Line> {
    seq(|lines|, i requires 0 <= i < |lines| => WithNewline(lines[i]))
  }

  /** A text up to the newline added after an unterminated last line. */
  function EndWithNewline(text: string): string {
    if text == "" || text[|text| - 1] == '\n' then text else text + "\n"
  }

  lemma {:induction false} RecoverSides(script: Script)
    ensures Recover(RenderedLines(script), '+') == Terminate(OldSide(script))
    ensures Recover(RenderedLines(script), '-') == Terminate(NewSide(script))
  {
    if script != [] {
      var rest, op := script[..|script| - 1], script[|script| - 1];
      RecoverSides(rest);
      var lines := RenderedLines(script);
      assert lines[..|lines| - 1] == RenderedLines(rest);
      assert lines[|lines| - 1] == Rendered(op) && Rendered(op)[1..] == WithNewline(op.line);
      assert Terminate(OldSide(rest) + [op.line]) == Terminate(OldSide(rest)) + [WithNewline(op.line)];
      assert Terminate(NewSide(rest) + [op.line]) == Terminate(NewSide(rest)) + [WithNewline(op.line)];
    }
  }

  lemma {:induction false} TerminateWellSplit(lines: seq<Line>)
    requires WellSplit(lines)
    ensures Join(Terminate(lines)) == EndWithNewline(Join(lines))
  {
    if lines != [] {
      var rest := lines[1..];
      TerminateWellSplit(rest);
      assert Terminate(lines)[1..] == Terminate(rest);
      if rest == [] {
        assert Join(lines) == lines[0] && Join(Terminate(lines)) == WithNewline(lines[0]);
      } else {
        assert Join(rest) == rest[0] + Join(rest[1..]) && rest[0] == lines[1];
        EndOfConcat(lines[0], Join(rest));
      }
    }
  }

  lemma EndOfConcat(front: string, text: string)
    requires text != ""
    ensures EndWithNewline(front + text) == front + EndWithNewline(text)
  {
    assert (front + text)[|front + text| - 1] == text[|text| - 1];
  }

  lemma {:induction false} SidesAreLines(script: Script, k: nat)
    requires WellSplit(OldSide(script)) && WellSplit(NewSide(script)) && k < |script|
    ensures LineShaped(script[k].line)
  {
    var rest, op := script[..|script| - 1], script[|script| - 1];
    if k < |rest| {
      assert forall i :: 0 <= i < |OldSide(rest)| ==> OldSide(rest)[i] == OldSide(script)[i];
      assert forall i :: 0 <= i < |NewSide(rest)| ==> NewSide(rest)[i] == NewSide(script)[i];
      SidesAreLines(rest, k);
    } else if op.Added? {
      assert NewSide(script)[|NewSide(rest)|] == op.line;
    } else {
      assert OldSide(script)[|OldSide(rest)|] == op.line;
    }
  }

  lemma RenderedShape(op: Operation)
    requires LineShaped(op.line)
    ensures LineShaped(Rendered(op)) && Terminated(Rendered(op))
  {
  }

  lemma RenderedIsWellSplit(script: Script)
    requires forall k :: 0 <= k < |script| ==> LineShaped(script[k].line)
    ensures WellSplit(RenderedLines(script))
  {
    forall k | 0 <= k < |script| ensures LineShaped(RenderedLines(script)[k]) && Terminated(RenderedLines(script)[k]) {
      RenderedShape(script[k]);
    }
  }

  /** Cutting a rendered body at its newlines gives back exactly one line per operation. */
  lemma BodySplitsPerOperation(script: Script)
    requires WellSplit(OldSide(script)) && WellSplit(NewSide(script))
    ensures SplitLines(Join(RenderedLines(script))) == RenderedLines(script)
  {
    forall k | 0 <= k < |script| ensures LineShaped(script[k].line) {
      SidesAreLines(script, k);
    }
    RenderedIsWellSplit(script);
    SplitOfJoin(RenderedLines(script));
  }

  /** The rendered body decodes: dropping additions gives the old text, dropping removals the new one,
      and the two hunk counts are the numbers of body lines each side keeps. */
  lemma DiffDecodes(before: string, after: string, script: Script)
    requires Transforms(script, SplitLines(before), SplitLines(after))
    ensures var body := SplitLines(Join(RenderedLines(script)));
            && Join(Recover(body, '+')) == EndWithNewline(before)
            && Join(Recover(body, '-')) == EndWithNewline(after)
            && |Recover(body, '+')| == |OldSide(script)|
            && |Recover(body, '-')| == |NewSide(script)|
  {
    SplitIsWellSplit(before);
    SplitIsWellSplit(after);
    BodySplitsPerOperation(script);
    RecoverSides(script);
    JoinOfSplit(before);
    JoinOfSplit(after);
    TerminateWellSplit(SplitLines(before));
    TerminateWellSplit(SplitLines(after));
  }

  /** What anyone reads off a diff: two lines that name the file, one with the numbers of old and new lines, and
      signed lines that hold the old text but for additions and the new one but for removals. */
  ghost predicate ReadsAs(shown: string, path: string, before: string, after: string) {
    exists oldCount, newCount, body :: ReadsWith(shown, path, before, after, oldCount, newCount, body)
  }

  ghost predicate ReadsWith(shown: string, path: string, before: string, after: string,
                            oldCount: string, newCount: string, body: string) {
    var lines := SplitLines(body);
    && shown == "--- " + path + "\n+++ " + path + "\n@@ -1," + oldCount + " +1," + newCount + " @@\n" + body
    && WellSigned(lines)
    && Spells(oldCount, |Recover(lines, '+')|) && Join(Recover(lines, '+')) == EndWithNewline(before)
    && Spells(newCount, |Recover(lines, '-')|) && Join(Recover(lines, '-')) == EndWithNewline(after)
  }

  /** Every line kept, removed or added, and no removal right after an addition. */
  ghost predicate WellSigned(lines: seq<Line>) {
    && (forall k :: 0 <= k < |lines| ==>
        lines[k] != "" && (lines[k][0] == ' ' || lines[k][0] == '-' || lines[k][0] == '+'))
    && (forall k :: 0 <= k < |lines| - 1 && lines[k][0] == '+' ==> lines[k + 1][0] != '-')
  }

  lemma LinesAreSigned(script: Script)
    requires RemovalsFirst(script)
    ensures WellSigned(RenderedLines(script))
  {
  }

  lemma HeaderThenBody(path: string, oldCount: nat, newCount: nat, body: string)
    ensures Header(path, oldCount, newCount) + body ==
            "--- " + path + "\n+++ " + path + "\n@@ -1," + Decimal(oldCount) + " +1," + Decimal(newCount) + " @@\n"
            + body
  {
  }

  lemma ShownDecodes(shown: string, path: string, before: string, after: string)
    requires ShowsDiff(shown, path, before, after)
    ensures ReadsAs(shown, path, before, after)
  {
    var script :| IsShortest(script, SplitLines(before), SplitLines(after)) && RemovalsFirst(script)
                  && shown == Header(path, |SplitLines(before)|, |SplitLines(after)|) + Join(RenderedLines(script));
    DiffDecodes(before, after, script);
    SplitIsWellSplit(before);
    SplitIsWellSplit(after);
    BodySplitsPerOperation(script);
    LinesAreSigned(script);
    HeaderThenBody(path, |SplitLines(before)|, |SplitLines(after)|, Join(RenderedLines(script)));
    DecimalSpells(|SplitLines(before)|);
    DecimalSpells(|SplitLines(after)|);
    assert ReadsWith(shown, path, before, after, Decimal(|SplitLines(before)|), Decimal(|SplitLines(after)|),
                     Join(RenderedLines(script)));
  }

  /** `unified_full_file_diff`. */
  method UnifiedFullFileDiff(path: string, before: string, after: string) returns (output: string)
    ensures ShowsDiff(output, path, before, after) && ReadsAs(output, path, before, after)
  {
    var beforeLines, afterLines := SplitLines(before), SplitLines(after);
    var script := DiffScript(beforeLines, afterLines);
    output := PushScript(Header(path, |beforeLines|, |afterLines|), script);
    ShownDecodes(output, path, before, after);
  }

  // ---------------------------------------------------------------- preview

  predicate OccursAt(text: string, pattern: string, i: nat) {
    i + |pattern| <= |text| && text[i..i + |pattern|] == pattern
  }

  /** The text is something of this length, the pattern, and whatever follows. */
  lemma OccursMeans(text: string, pattern: string, front: string)
    ensures |front| <= |text| && text[..|front|] == front && OccursAt(text, pattern, |front|) <==>
            exists back :: text == front + pattern + back
  {
    if |front| <= |text| && text[..|front|] == front && OccursAt(text, pattern, |front|) {
      assert text == front + pattern + text[|front| + |pattern|..];
    }
    if back :| text == front + pattern + back {
      assert (front + pattern + back)[|front|..|front| + |pattern|] == pattern;
    }
  }

  /** `match_indices`: left to right, continuing after the end of each match. */
  function MatchIndices(text: string, pattern: string, from: nat): seq<nat>
    requires pattern != ""
    decreases |text| - from
  {
    if from + |pattern| > |text| then []
    else if text[from..from + |pattern|] == pattern then [from] + MatchIndices(text, pattern, from + |pattern|)
    else MatchIndices(text, pattern, from + 1)
  }

  /** Occurrences listed left to right with no two overlapping. */
  ghost predicate Disjoint(text: string, pattern: string, from: nat, places: seq<nat>) {
    && (forall k :: 0 <= k < |places| ==> from <= places[k] && OccursAt(text, pattern, places[k]))
    && (forall k :: 0 <= k < |places| - 1 ==> places[k] + |pattern| <= places[k + 1])
  }

  /** The matches are disjoint occurrences. */
  lemma {:induction false} MatchesAreDisjoint(text: string, pattern: string, from: nat)
    requires pattern != ""
    ensures Disjoint(text, pattern, from, MatchIndices(text, pattern, from))
    decreases |text| - from
  {
    if from + |pattern| <= |text| {
      if OccursAt(text, pattern, from) {
        MatchesAreDisjoint(text, pattern, from + |pattern|);
      } else {
        MatchesAreDisjoint(text, pattern, from + 1);
      }
    }
  }

  lemma LaterPlaces(text: string, pattern: string, from: nat, places: seq<nat>)
    requires pattern != "" && Disjoint(text, pattern, from, places) && places != []
    ensures Disjoint(text, pattern, from + |pattern|, places[1..])
  {
    Increasing(text, pattern, from, places);
  }

  /** The first match is the leftmost occurrence, and no choice of disjoint occurrences is larger: `matched n
      times` counts as many as fit side by side. */
  lemma {:induction false} MatchesAreMaximal(text: string, pattern: string, from: nat, places: seq<nat>)
    requires pattern != "" && Disjoint(text, pattern, from, places)
    ensures Disjoint(text, pattern, from, MatchIndices(text, pattern, from))
    ensures |places| <= |MatchIndices(text, pattern, from)|
    ensures places != [] ==> MatchIndices(text, pattern, from)[0] <= places[0]
    decreases |text| - from
  {
    MatchesAreDisjoint(text, pattern, from);
    if places != [] {
      assert OccursAt(text, pattern, places[0]);
      if OccursAt(text, pattern, from) {
        LaterPlaces(text, pattern, from, places);
        MatchesAreMaximal(text, pattern, from + |pattern|, places[1..]);
      } else {
        assert forall k :: 0 <= k < |places| ==> places[k] != from;
        MatchesAreMaximal(text, pattern, from + 1, places);
      }
    }
  }

  lemma {:induction false} Increasing(text: string, pattern: string, from: nat, places: seq<nat>)
    requires pattern != "" && Disjoint(text, pattern, from, places)
    ensures forall k :: 0 < k < |places| ==> places[0] + |pattern| <= places[k]
    decreases |places|
  {
    if |places| > 1 {
      assert Disjoint(text, pattern, from, places[..|places| - 1]);
      Increasing(text, pattern, from, places[..|places| - 1]);
      var last := |places| - 1;
      assert places[last - 1] + |pattern| <= places[last];
      assert forall k :: 0 < k < last ==> places[..last][k] == places[k];
    }
  }

  /** There is an occurrence, and every occurrence starts inside this one. */
  ghost predicate SoleMatch(text: string, pattern: string, place: nat) {
    OccursAt(text, pattern, place) && forall i: nat :: OccursAt(text, pattern, i) ==> place <= i < place + |pattern|
  }

  /** Exactly one match means that every occurrence starts inside the leftmost one, not that it is unique. */
  lemma OneMatchMeans(text: string, pattern: string, place: nat)
    requires pattern != ""
    ensures MatchIndices(text, pattern, 0) == [place] <==> SoleMatch(text, pattern, place)
  {
    var matches := MatchIndices(text, pattern, 0);
    MatchesAreMaximal(text, pattern, 0, []);
    if matches == [place] {
      assert OccursAt(text, pattern, matches[0]);
      forall i: nat | OccursAt(text, pattern, i) ensures place <= i < place + |pattern| {
        MatchesAreMaximal(text, pattern, 0, [i]);
        if place + |pattern| <= i {
          MatchesAreMaximal(text, pattern, 0, [place, i]);
        }
      }
    }
    assert |matches| > 1 ==> matches[0] + |pattern| <= matches[1] && OccursAt(text, pattern, matches[1]);
    if SoleMatch(text, pattern, place) {
      MatchesAreMaximal(text, pattern, 0, [place]);
      assert matches[0] == place;
    }
  }

  /** At most `n` occurrences fit side by side, and `n` do. */
  ghost predicate MostSideBySide(text: string, pattern: string, n: nat) {
    && (exists places :: Disjoint(text, pattern, 0, places) && |places| == n)
    && (forall places :: Disjoint(text, pattern, 0, places) ==> |places| <= n)
  }

  lemma MatchCases(text: string, pattern: string)
    requires pattern != ""
    ensures MatchIndices(text, pattern, 0) == [] <==> forall i: nat :: !OccursAt(text, pattern, i)
    ensures |MatchIndices(text, pattern, 0)| == 1 <==> exists place: nat :: SoleMatch(text, pattern, place)
    ensures MostSideBySide(text, pattern, |MatchIndices(text, pattern, 0)|)
  {
    var matches := MatchIndices(text, pattern, 0);
    MatchesAreMaximal(text, pattern, 0, []);
    forall places | Disjoint(text, pattern, 0, places) ensures |places| <= |matches| {
      MatchesAreMaximal(text, pattern, 0, places);
    }
    if matches == [] {
      forall i: nat ensures !OccursAt(text, pattern, i) {
        if OccursAt(text, pattern, i) {
          MatchesAreMaximal(text, pattern, 0, [i]);
        }
      }
    } else {
      assert OccursAt(text, pattern, matches[0]);
      if |matches| == 1 {
        assert matches == [matches[0]];
        OneMatchMeans(text, pattern, matches[0]);
      } else {
        forall place: nat ensures !SoleMatch(text, pattern, place) {
          OneMatchMeans(text, pattern, place);
        }
      }
    }
  }

  lemma NowhereMeans(text: string, pattern: string)
    ensures (forall i: nat :: !OccursAt(text, pattern, i)) <==> forall front, back :: text != front + pattern + back
  {
    if i: nat :| OccursAt(text, pattern, i) {
      OccursMeans(text, pattern, text[..i]);
    }
    if front, back :| text == front + pattern + back {
      OccursMeans(text, pattern, front);
    }
  }

  datatype PreviewError = EmptyPattern | NotFound | Ambiguous(count: nat)

  datatype Preview = Shown(diff: string) | Refused(error: PreviewError)

  function Splice(current: string, start: nat, end: nat, replacement: string): string
    requires start <= end <= |current|
  {
    current[..start] + replacement + current[end..]
  }

  /** The diff shown for replacing the match at `place`. */
  ghost predicate ShowsReplacement(shown: string, path: string, current: string, pattern: string, replacement: string,
                                   place: nat)
    requires OccursAt(current, pattern, place)
  {
    var updated := current[..place] + replacement + current[place + |pattern|..];
    ShowsDiff(shown, path, current, updated) && ReadsAs(shown, path, current, updated)
  }

  /** `preview_exact_replacement_in_root`, from the bytes read to the text returned. */
  method PreviewExactReplacement(path: string, current: string, pattern: string,
                                 replacement: string) returns (r: Preview)
    ensures r == Refused(EmptyPattern) <==> pattern == ""
    ensures r == Refused(NotFound) <==> pattern != "" && forall front, back :: current != front + pattern + back
    ensures r.Shown? <==> pattern != "" && exists place: nat :: SoleMatch(current, pattern, place)
    ensures forall place: nat :: pattern != "" && SoleMatch(current, pattern, place) ==>
                                   r.Shown? && ShowsReplacement(r.diff, path, current, pattern, replacement, place)
    ensures r.Refused? && r.error.Ambiguous? ==> r.error.count >= 2 && MostSideBySide(current, pattern, r.error.count)
  {
    if pattern == "" {
      return Refused(EmptyPattern);
    }
    var matches := MatchIndices(current, pattern, 0);
    MatchCases(current, pattern);
    NowhereMeans(current, pattern);
    if matches == [] {
      return Refused(NotFound);
    }
    if |matches| > 1 {
      return Refused(Ambiguous(|matches|));
    }
    var start := matches[0];
    assert matches == [start];
    forall place: nat ensures SoleMatch(current, pattern, place) <==> place == start {
      OneMatchMeans(current, pattern, place);
    }
    var updated := Splice(current, start, start + |pattern|, replacement);
    var diff := UnifiedFullFileDiff(path, current, updated);
    assert ShowsReplacement(diff, path, current, pattern, replacement, start);
    return Shown(diff);
  }
}
