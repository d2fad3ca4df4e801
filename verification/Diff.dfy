/** The line diff of `patch/diff.rs`: a longest-common-subsequence table filled from
    the back, and a greedy walk over it that pushes one operation per line. */
module Diff {

  type Line = string

  datatype Operation = Unchanged(line: Line) | Removed(line: Line) | Added(line: Line)

  type Script = seq<Operation>

  /** The lines a script consumes: what it claims the old text was. */
  function OldSide(script: Script): seq<Line> {
    if script == [] then [] else
    var rest, op := script[..|script| - 1], script[|script| - 1];
    if op.Added? then OldSide(rest) else OldSide(rest) + [op.line]
  }

  /** The lines a script produces: what it claims the new text is. */
  function NewSide(script: Script): seq<Line> {
    if script == [] then [] else
    var rest, op := script[..|script| - 1], script[|script| - 1];
    if op.Removed? then NewSide(rest) else NewSide(rest) + [op.line]
  }

  /** The lines a script keeps. */
  function Kept(script: Script): seq<Line> {
    if script == [] then [] else
    var rest, op := script[..|script| - 1], script[|script| - 1];
    if op.Unchanged? then Kept(rest) + [op.line] else Kept(rest)
  }

  /** Removals plus additions. */
  function Changes(script: Script): nat {
    if script == [] then 0 else
    var rest, op := script[..|script| - 1], script[|script| - 1];
    if op.Unchanged? then Changes(rest) else Changes(rest) + 1
  }

  ghost predicate Transforms(script: Script, before: seq<Line>, after: seq<Line>) {
    OldSide(script) == before && NewSide(script) == after
  }

  /** A shortest edit script: no script with the same sides removes and adds fewer lines. */
  ghost predicate IsShortest(script: Script, before: seq<Line>, after: seq<Line>) {
    && Transforms(script, before, after)
    && forall other :: Transforms(other, before, after) ==> Changes(script) <= Changes(other)
  }

  // ---------------------------------------------------------------- subsequences

  ghost predicate IsSubsequence(s: seq<Line>, t: seq<Line>) {
    s == [] || (t != [] && ((s[0] == t[0] && IsSubsequence(s[1..], t[1..])) || IsSubsequence(s, t[1..])))
  }

  ghost predicate IsCommon(s: seq<Line>, before: seq<Line>, after: seq<Line>) {
    IsSubsequence(s, before) && IsSubsequence(s, after)
  }

  ghost predicate IsLongestCommon(s: seq<Line>, before: seq<Line>, after: seq<Line>) {
    IsCommon(s, before, after) && forall c :: IsCommon(c, before, after) ==> |c| <= |s|
  }

  /** The recurrence each table cell is filled by. */
  ghost function Lcs(before: seq<Line>, after: seq<Line>): nat
    decreases |before| + |after|
  {
    if before == [] || after == [] then 0
    else if before[0] == after[0] then Lcs(before[1..], after[1..]) + 1
    else Max(Lcs(before[1..], after), Lcs(before, after[1..]))
  }

  function Max(a: nat, b: nat): nat {
    if a >= b then a else b
  }

  /** Dropping one line changes the recurrence by at most one. */
  lemma {:induction false} LcsStep(before: seq<Line>, after: seq<Line>)
    ensures before != [] ==> Lcs(before[1..], after) <= Lcs(before, after) <= Lcs(before[1..], after) + 1
    ensures after != [] ==> Lcs(before, after[1..]) <= Lcs(before, after) <= Lcs(before, after[1..]) + 1
    decreases |before| + |after|
  {
    if before != [] && after != [] {
      LcsStep(before[1..], after);
      LcsStep(before, after[1..]);
      if before[0] == after[0] {
        LcsStep(before[1..], after[1..]);
      }
    }
  }

  /** A subsequence survives dropping its own head. */
  lemma {:induction false} SubsequenceTail(s: seq<Line>, t: seq<Line>)
    requires s != [] && IsSubsequence(s, t)
    ensures IsSubsequence(s[1..], t)
  {
    if IsSubsequence(s, t[1..]) {
      SubsequenceTail(s, t[1..]);
    }
  }

  /** No common subsequence is longer than the recurrence says. */
  lemma {:induction false} LcsBounds(s: seq<Line>, before: seq<Line>, after: seq<Line>)
    requires IsCommon(s, before, after)
    ensures |s| <= Lcs(before, after)
    decreases |before| + |after|
  {
    if s != [] {
      LcsStep(before, after);
      if IsSubsequence(s, before[1..]) {
        LcsBounds(s, before[1..], after);
      } else if IsSubsequence(s, after[1..]) {
        LcsBounds(s, before, after[1..]);
      } else {
        LcsBounds(s[1..], before[1..], after[1..]);
      }
    }
  }

  lemma {:induction false} SubsequenceAppend(s: seq<Line>, t: seq<Line>, x: Line)
    requires IsSubsequence(s, t)
    ensures IsSubsequence(s, t + [x])
    ensures IsSubsequence(s + [x], t + [x])
  {
    if t == [] {
      assert s + [x] == t + [x] == [x];
    } else {
      assert (t + [x])[1..] == t[1..] + [x];
      if s != [] && s[0] == t[0] && IsSubsequence(s[1..], t[1..]) {
        SubsequenceAppend(s[1..], t[1..], x);
        assert (s + [x])[1..] == s[1..] + [x];
      } else {
        SubsequenceAppend(s, t[1..], x);
      }
    }
  }

  /** What a script keeps is common to both of its sides. */
  lemma {:induction false} KeptIsCommon(script: Script)
    ensures IsCommon(Kept(script), OldSide(script), NewSide(script))
    ensures |OldSide(script)| + |NewSide(script)| == 2 * |Kept(script)| + Changes(script)
  {
    if script != [] {
      var rest, op := script[..|script| - 1], script[|script| - 1];
      KeptIsCommon(rest);
      SubsequenceAppend(Kept(rest), OldSide(rest), op.line);
      SubsequenceAppend(Kept(rest), NewSide(rest), op.line);
    }
  }

  /** The recurrence, attained by a script, is a shortest edit script and a longest common subsequence. */
  lemma AttainingLcsIsOptimal(script: Script, before: seq<Line>, after: seq<Line>)
    requires Transforms(script, before, after) && |Kept(script)| == Lcs(before, after)
    ensures IsLongestCommon(Kept(script), before, after)
    ensures IsShortest(script, before, after)
  {
    KeptIsCommon(script);
    forall c | IsCommon(c, before, after) ensures |c| <= |Kept(script)| {
      LcsBounds(c, before, after);
    }
    forall other | Transforms(other, before, after) ensures Changes(script) <= Changes(other) {
      KeptIsCommon(other);
      LcsBounds(Kept(other), before, after);
    }
  }

  /** The same for what is left of both sides from line `i` and line `j` on. */
  ghost function Cell(before: seq<Line>, after: seq<Line>, i: nat, j: nat): (length: nat)
    requires i <= |before| && j <= |after|
    ensures i == |before| || j == |after| ==> length == 0
  {
    Lcs(before[i..], after[j..])
  }

  // ---------------------------------------------------------------- the walk

  /** The walk stands at `(i, j)`: it has replayed both prefixes and can still reach the maximum. */
  ghost predicate Walked(script: Script, before: seq<Line>, after: seq<Line>, i: nat, j: nat)
    requires i <= |before| && j <= |after|
  {
    && OldSide(script) == before[..i] && NewSide(script) == after[..j]
    && |Kept(script)| + Cell(before, after, i, j) == Lcs(before, after)
  }

  /** Pushing one operation, chosen as the walk chooses it, keeps the walk on an optimal path. */
  lemma WalkStep(script: Script, before: seq<Line>, after: seq<Line>, i: nat, j: nat, op: Operation)
    requires i <= |before| && j <= |after| && Walked(script, before, after, i, j)
    requires !op.Added? ==> i < |before| && op.line == before[i]
    requires !op.Removed? ==> j < |after| && op.line == after[j]
    requires !op.Unchanged? && i < |before| && j < |after| ==>
               before[i] != after[j] && (op.Removed? <==>
                                         Cell(before, after, i + 1, j) >= Cell(before, after, i, j + 1))
    ensures Walked(script + [op], before, after, if op.Added? then i else i + 1, if op.Removed? then j else j + 1)
  {
    assert (script + [op])[..|script|] == script;
    if i < |before| {
      assert before[i..][1..] == before[i + 1..];
    }
    if j < |after| {
      assert after[j..][1..] == after[j + 1..];
    }
  }

  /** Where lines were changed, what was there is shown before what is there now. */
  ghost predicate RemovalsFirst(script: Script) {
    forall k :: 0 <= k < |script| - 1 && script[k].Added? ==> !script[k + 1].Removed?
  }

  /** An addition was chosen last only if removing the line that is now next would have kept fewer lines. */
  ghost predicate AddedForMore(script: Script, before: seq<Line>, after: seq<Line>, i: nat, j: nat)
    requires i <= |before| && j <= |after|
  {
    script != [] && script[|script| - 1].Added? && i < |before| ==>
      0 < j && Cell(before, after, i + 1, j - 1) < Cell(before, after, i, j)
  }

  lemma StepKeepsRemovalsFirst(script: Script, before: seq<Line>, after: seq<Line>, i: nat, j: nat, op: Operation)
    requires i <= |before| && j <= |after| && RemovalsFirst(script) && AddedForMore(script, before, after, i, j)
    requires !op.Added? ==> i < |before|
    requires !op.Removed? ==> j < |after|
    requires !op.Unchanged? && i < |before| && j < |after| ==>
               before[i] != after[j] && (op.Removed? <==>
                                         Cell(before, after, i + 1, j) >= Cell(before, after, i, j + 1))
    ensures RemovalsFirst(script + [op])
    ensures AddedForMore(script + [op], before, after, if op.Added? then i else i + 1, if op.Removed? then j else j + 1)
  {
    if op.Removed? && 0 < j {
      RemovalIsNoWorse(before, after, i, j);
    }
  }

  lemma RemovalIsNoWorse(before: seq<Line>, after: seq<Line>, i: nat, j: nat)
    requires i < |before| && 0 < j <= |after|
    ensures j < |after| && before[i] != after[j] && Cell(before, after, i + 1, j) >= Cell(before, after, i, j + 1) ==>
              Cell(before, after, i + 1, j - 1) >= Cell(before, after, i, j)
    ensures j == |after| ==> Cell(before, after, i, j) == 0
  {
    if j < |after| {
      LcsAt(before, after, i, j);
    }
    LcsStep(before[i + 1..], after[j - 1..]);
    assert after[j - 1..][1..] == after[j..];
  }

  ghost predicate IsTable(lengths: array2<nat>, before: seq<Line>, after: seq<Line>)
    reads lengths
  {
    && lengths.Length0 == |before| + 1 && lengths.Length1 == |after| + 1
    && forall i, j :: 0 <= i <= |before| && 0 <= j <= |after| ==> lengths[i, j] == Cell(before, after, i, j)
  }

  lemma LcsAt(before: seq<Line>, after: seq<Line>, i: nat, j: nat)
    requires i < |before| && j < |after|
    ensures Cell(before, after, i, j) ==
            if before[i] == after[j] then Cell(before, after, i + 1, j + 1) + 1
            else Max(Cell(before, after, i + 1, j), Cell(before, after, i, j + 1))
  {
    assert before[i..][1..] == before[i + 1..] && after[j..][1..] == after[j + 1..];
  }

  /** The two nested loops that fill the table from the last row and column back. */
  method FillLengths(before: seq<Line>, after: seq<Line>) returns (lengths: array2<nat>)
    ensures fresh(lengths) && IsTable(lengths, before, after)
  {
    lengths := new nat[|before| + 1, |after| + 1]((_, _) => 0);
    var oldIndex := |before|;
    while oldIndex > 0
      invariant 0 <= oldIndex <= |before|
      invariant forall i, j :: oldIndex <= i <= |before| && 0 <= j <= |after| ==>
                lengths[i, j] == Cell(before, after, i, j)
      invariant forall i :: 0 <= i < oldIndex ==> lengths[i, |after|] == 0
    {
      oldIndex := oldIndex - 1;
      var newIndex := |after|;
      while newIndex > 0
        invariant 0 <= newIndex <= |after|
        invariant forall i, j :: oldIndex < i <= |before| && 0 <= j <= |after| ==>
                  lengths[i, j] == Cell(before, after, i, j)
        invariant forall j :: newIndex <= j <= |after| ==> lengths[oldIndex, j] == Cell(before, after, oldIndex, j)
        invariant forall i :: 0 <= i < oldIndex ==> lengths[i, |after|] == 0
      {
        newIndex := newIndex - 1;
        LcsAt(before, after, oldIndex, newIndex);
        lengths[oldIndex, newIndex] :=
          if before[oldIndex] == after[newIndex] then lengths[oldIndex + 1, newIndex + 1] + 1
          else Max(lengths[oldIndex + 1, newIndex], lengths[oldIndex, newIndex + 1]);
      }
    }
  }

  /** `diff_script`: it turns before into after, keeps a longest common subsequence, and no script
      that turns before into after has fewer removals plus additions. */
  method DiffScript(before: seq<Line>, after: seq<Line>) returns (script: Script)
    ensures IsLongestCommon(Kept(script), before, after)
    ensures IsShortest(script, before, after)
    ensures RemovalsFirst(script)
  {
    var lengths := FillLengths(before, after);
    script := [];
    var oldIndex, newIndex := 0, 0;
    assert before[0..] == before && after[0..] == after;
    while oldIndex < |before| && newIndex < |after|
      invariant 0 <= oldIndex <= |before| && 0 <= newIndex <= |after|
      invariant IsTable(lengths, before, after)
      invariant Walked(script, before, after, oldIndex, newIndex)
      invariant RemovalsFirst(script) && AddedForMore(script, before, after, oldIndex, newIndex)
      decreases |before| - oldIndex + |after| - newIndex
    {
      if before[oldIndex] == after[newIndex] {
        WalkStep(script, before, after, oldIndex, newIndex, Unchanged(before[oldIndex]));
        StepKeepsRemovalsFirst(script, before, after, oldIndex, newIndex, Unchanged(before[oldIndex]));
        script := script + [Unchanged(before[oldIndex])];
        oldIndex, newIndex := oldIndex + 1, newIndex + 1;
      } else if lengths[oldIndex + 1, newIndex] >= lengths[oldIndex, newIndex + 1] {
        WalkStep(script, before, after, oldIndex, newIndex, Removed(before[oldIndex]));
        StepKeepsRemovalsFirst(script, before, after, oldIndex, newIndex, Removed(before[oldIndex]));
        script := script + [Removed(before[oldIndex])];
        oldIndex := oldIndex + 1;
      } else {
        WalkStep(script, before, after, oldIndex, newIndex, Added(after[newIndex]));
        StepKeepsRemovalsFirst(script, before, after, oldIndex, newIndex, Added(after[newIndex]));
        script := script + [Added(after[newIndex])];
        newIndex := newIndex + 1;
      }
    }
    while oldIndex < |before|
      invariant 0 <= oldIndex <= |before| && 0 <= newIndex <= |after|
      invariant oldIndex == |before| || newIndex == |after|
      invariant Walked(script, before, after, oldIndex, newIndex)
      invariant RemovalsFirst(script) && AddedForMore(script, before, after, oldIndex, newIndex)
    {
      WalkStep(script, before, after, oldIndex, newIndex, Removed(before[oldIndex]));
      StepKeepsRemovalsFirst(script, before, after, oldIndex, newIndex, Removed(before[oldIndex]));
      script := script + [Removed(before[oldIndex])];
      oldIndex := oldIndex + 1;
    }
    while newIndex < |after|
      invariant 0 <= newIndex <= |after|
      invariant Walked(script, before, after, |before|, newIndex)
      invariant RemovalsFirst(script) && AddedForMore(script, before, after, |before|, newIndex)
    {
      WalkStep(script, before, after, |before|, newIndex, Added(after[newIndex]));
      StepKeepsRemovalsFirst(script, before, after, |before|, newIndex, Added(after[newIndex]));
      script := script + [Added(after[newIndex])];
      newIndex := newIndex + 1;
    }
    AttainingLcsIsOptimal(script, before, after);
  }
}
