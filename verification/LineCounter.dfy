/** `Utf8LineCounter` of `fs/guarded_file.rs`: a UTF-8 validator and line counter fed one chunk at a time. */
module LineCounter {
  import opened Options
  import opened Utf8

  const NEWLINE: Byte := 0x0A

  // ---------------------------------------------------------------- what is counted

  function CountNewlines(bytes: Bytes): nat {
    if bytes == [] then 0
    else CountNewlines(bytes[..|bytes| - 1]) + if bytes[|bytes| - 1] == NEWLINE then 1 else 0
  }

  /** Just past the first newline, or the end. */
  function FirstLineEnd(bytes: Bytes): (n: nat)
    ensures n <= |bytes| && (bytes != [] ==> n > 0)
  {
    if bytes == [] then 0 else if bytes[0] == '\n' as int then 1 else FirstLineEnd(bytes[1..]) + 1
  }

  /** The number of lines of a whole text, each with its newline and the last one possibly without. */
  function LineCount(bytes: Bytes): nat {
    if bytes == [] then 0 else 1 + LineCount(bytes[FirstLineEnd(bytes)..])
  }

  lemma {:induction false} NewlinesOfConcat(a: Bytes, b: Bytes)
    ensures CountNewlines(a + b) == CountNewlines(a) + CountNewlines(b)
  {
    if b == [] {
      assert a + b == a;
    } else {
      NewlinesOfConcat(a, b[..|b| - 1]);
      assert (a + b)[..|a + b| - 1] == a + b[..|b| - 1];
    }
  }

  lemma {:induction false} FirstLineHasNoInnerNewline(bytes: Bytes)
    requires bytes != []
    ensures var n := FirstLineEnd(bytes);
            && CountNewlines(bytes[..n]) == (if bytes[n - 1] == NEWLINE then 1 else 0)
            && (n < |bytes| ==> bytes[n - 1] == NEWLINE)
  {
    var n := FirstLineEnd(bytes);
    if bytes[0] == NEWLINE || |bytes| == 1 {
      assert bytes[..1] == [bytes[0]];
    } else {
      FirstLineHasNoInnerNewline(bytes[1..]);
      assert bytes[..n] == [bytes[0]] + bytes[1..][..n - 1];
      NewlinesOfConcat([bytes[0]], bytes[1..][..n - 1]);
    }
  }

  /** Counting lines is counting newlines, plus one for an unterminated end. */
  lemma {:induction false} LinesFromNewlines(bytes: Bytes)
    ensures LineCount(bytes) ==
            CountNewlines(bytes) + if bytes != [] && bytes[|bytes| - 1] != NEWLINE then 1 else 0
  {
    if bytes != [] {
      var n := FirstLineEnd(bytes);
      FirstLineHasNoInnerNewline(bytes);
      LinesFromNewlines(bytes[n..]);
      NewlinesOfConcat(bytes[..n], bytes[n..]);
      assert bytes == bytes[..n] + bytes[n..];
    }
  }

  /** The answer for a whole text, chunks forgotten. */
  ghost function Answer(bytes: Bytes): Option<nat> {
    if WellFormed(bytes) then Some(LineCount(bytes)) else None
  }

  // ---------------------------------------------------------------- the counter

  /** What the two validation fields hold after some bytes: nothing pending while the bytes are valid, the
      incomplete prefix of one character when they stop inside it, and nothing once they are broken. */
  ghost predicate Agrees(valid: bool, pending: Bytes, seen: Bytes) {
    match FromUtf8(seen)
    case Valid => valid && pending == []
    case Invalid(upTo, None) => valid && pending == seen[upTo..] && pending != [] && FirstStep(pending) == CutShort
    case Invalid(_, Some(_)) => !valid && pending == []
  }

  /** The fields after a verdict on the bytes that are still undecided. */
  ghost predicate Follows(v: Validity, bytes: Bytes, seen: Bytes) {
    match v
    case Valid => Agrees(true, [], seen)
    case Invalid(upTo, None) => upTo <= |bytes| && Agrees(true, bytes[upTo..], seen)
    case Invalid(_, Some(_)) => Agrees(false, [], seen)
  }

  lemma SliceAfter(good: Bytes, bytes: Bytes, n: nat)
    requires n <= |bytes|
    ensures (good + bytes)[|good| + n..] == bytes[n..]
  {
  }

  /** After valid bytes, the verdict on what follows settles the fields for the whole. */
  lemma SettlesAfterValid(good: Bytes, bytes: Bytes)
    requires FromUtf8(good) == Valid
    ensures Follows(FromUtf8(bytes), bytes, good + bytes)
  {
    ValidThen(good, bytes);
    if FromUtf8(bytes).Invalid? {
      ValidUpTo(bytes);
      SliceAfter(good, bytes, FromUtf8(bytes).validUpTo);
    }
  }

  lemma GrownFails(pending: Bytes, b: Byte)
    requires pending != [] && FirstStep(pending) == CutShort
    ensures FromUtf8(pending + [b]).Invalid? && FromUtf8(pending + [b]).errorLen.None? ==>
            FromUtf8(pending + [b]).validUpTo == 0
  {
    var grown := pending + [b];
    if FirstStep(grown).Whole? {
      assert grown[|grown|..] == [];
    }
  }

  /** A pending prefix grown by one byte is whole, broken, or still cut short from its first byte. */
  lemma GrowPending(pending: Bytes, b: Byte, seen: Bytes)
    requires pending != [] && Agrees(true, pending, seen)
    ensures Follows(FromUtf8(pending + [b]), pending + [b], seen + [b])
    ensures FromUtf8(pending + [b]).Invalid? && FromUtf8(pending + [b]).errorLen.None? ==>
            FromUtf8(pending + [b]).validUpTo == 0
  {
    var grown, upTo := pending + [b], |seen| - |pending|;
    assert FromUtf8(seen) == Invalid(upTo, None);
    ValidUpTo(seen);
    SettlesAfterValid(seen[..upTo], grown);
    assert seen + [b] == seen[..upTo] + grown;
    GrownFails(pending, b);
  }

  lemma BrokenAgreesForever(seen: Bytes, more: Bytes)
    requires Agrees(false, [], seen)
    ensures Agrees(false, [], seen + more)
  {
    BrokenStays(seen, more);
  }

  lemma MoveOne(seen: Bytes, rest: Bytes)
    requires rest != []
    ensures (seen + [rest[0]]) + rest[1..] == seen + rest
  {
  }

  class Utf8LineCounter {
    var valid: bool
    var pending: Bytes
    var newlineCount: nat
    var lastByte: Option<Byte>
    ghost var seen: Bytes

    ghost predicate Invariant()
      reads this
    {
      Agrees(valid, pending, seen) && Counted()
    }

    ghost predicate Counted()
      reads `newlineCount, `lastByte, `seen
    {
      && newlineCount == CountNewlines(seen)
      && lastByte == if seen == [] then None else Some(seen[|seen| - 1])
    }

    constructor ()
      ensures Invariant() && seen == []
    {
      valid, pending, newlineCount, lastByte, seen := true, [], 0, None, [];
    }

    /** The loop over a pending prefix: it takes bytes one at a time until it is whole or broken. */
    method TakePending(bytes: Bytes) returns (rest: Bytes)
      requires valid && Agrees(valid, pending, seen)
      modifies `valid, `pending, `seen
      ensures old(seen) + bytes == seen + rest
      ensures Agrees(valid, pending, seen)
      ensures valid && pending != [] ==> rest == []
    {
      rest := bytes;
      while valid && pending != [] && rest != []
        invariant old(seen) + bytes == seen + rest
        invariant Agrees(valid, pending, seen)
        decreases |rest|
      {
        GrowPending(pending, rest[0], seen);
        MoveOne(seen, rest);
        seen := seen + [rest[0]];
        pending := pending + [rest[0]];
        rest := rest[1..];
        match FromUtf8(pending)
        case Valid => pending := [];
        case Invalid(_, None) =>
        case Invalid(_, Some(_)) =>
          valid := false;
          pending := [];
      }
    }

    /** One chunk. */
    method Update(chunk: Bytes)
      requires Invariant()
      modifies this
      ensures Invariant() && seen == old(seen) + chunk
    {
      NewlinesOfConcat(seen, chunk);
      newlineCount := newlineCount + CountNewlines(chunk);
      if chunk != [] {
        lastByte := Some(chunk[|chunk| - 1]);
      }
      if !valid {
        BrokenAgreesForever(seen, chunk);
        seen := seen + chunk;
        return;
      }
      var bytes := TakePending(chunk);
      ghost var taken := seen;
      seen := seen + bytes;
      if !valid {
        BrokenAgreesForever(taken, bytes);
        return;
      }
      if pending != [] || bytes == [] {
        assert seen == taken;
        return;
      }
      SettlesAfterValid(taken, bytes);
      match FromUtf8(bytes)
      case Valid =>
      case Invalid(_, Some(_)) => valid := false;
      case Invalid(upTo, None) => pending := pending + bytes[upTo..];
    }

    method Finish() returns (lines: Option<nat>)
      requires Invariant()
      ensures lines == Answer(seen)
    {
      ValidIffWellFormed(seen);
      LinesFromNewlines(seen);
      if !valid || pending != [] {
        return None;
      }
      match lastByte
      case None => return Some(0);
      case Some(last) => return if last == NEWLINE then Some(newlineCount) else Some(newlineCount + 1);
    }
  }

  function Concat(chunks: seq<Bytes>): Bytes {
    if chunks == [] then [] else Concat(chunks[..|chunks| - 1]) + chunks[|chunks| - 1]
  }

  /** Every way of cutting a text into chunks, empty ones included, gives the whole text's answer. */
  method CountChunks(chunks: seq<Bytes>) returns (lines: Option<nat>)
    ensures lines == Answer(Concat(chunks))
  {
    var counter := new Utf8LineCounter();
    assert chunks[..0] == [];
    for i := 0 to |chunks|
      invariant counter.Invariant() && counter.seen == Concat(chunks[..i])
    {
      counter.Update(chunks[i]);
      assert chunks[..i + 1][..i] == chunks[..i];
    }
    assert chunks[..|chunks|] == chunks;
    lines := counter.Finish();
  }
}
