/** The two positioned read loops of `fs/guarded_file.rs`, over a file that other processes may change
    and a kernel that may return fewer bytes than asked. */
module FileRead {
  import opened Options
  import opened Utf8
  import opened LineCounter

  const BUFFER_BYTES: nat := 64 * 1024

  /** One open file over time; every system call takes one tick. `stamp` stands for the identity and the
      modification and change times of a metadata snapshot, `willing` for how much a read returns. */
  datatype FileHistory = FileHistory(content: nat -> Bytes, stamp: nat -> nat, willing: nat -> nat)

  function Size(file: FileHistory, tick: nat): nat {
    |file.content(tick)|
  }

  /** `FileContentSnapshot::capture`. */
  function Snapshot(file: FileHistory, tick: nat): (nat, nat) {
    (Size(file, tick), file.stamp(tick))
  }

  function Min(a: nat, b: nat): nat {
    if a <= b then a else b
  }

  /** `read_at`: nothing at or past the end, otherwise at least one byte and at most what was asked. */
  function ReadAt(file: FileHistory, tick: nat, requested: nat, offset: nat): (chunk: Bytes)
    ensures |chunk| <= requested && offset <= Size(file, tick) ==> |chunk| <= Size(file, tick) - offset
    ensures requested > 0 && offset < Size(file, tick) ==> |chunk| > 0
  {
    if requested == 0 || Size(file, tick) <= offset then []
    else
      var willing := if file.willing(tick) == 0 then 1 else file.willing(tick);
      file.content(tick)[offset..offset + Min(Min(requested, Size(file, tick) - offset), willing)]
  }

  ghost predicate Steady(file: FileHistory, until: nat) {
    forall tick: nat :: tick <= until ==> file.content(tick) == file.content(0)
  }

  /** Sizes and stamps do not lie: while both come back the same, there has been one content in between. */
  ghost predicate StampsAreHonest(file: FileHistory) {
    forall tick: nat :: |file.content(tick)| == |file.content(0)| && file.stamp(tick) == file.stamp(0) ==>
      Steady(file, tick)
  }

  ghost predicate Unchanging(file: FileHistory) {
    forall tick: nat :: file.content(tick) == file.content(0) && file.stamp(tick) == file.stamp(0)
  }

  datatype ReadError = PastEnd | Changed | PathRebound

  datatype Inspection = Inspected(totalBytes: nat, bytes: Bytes, sha256: string, lineCount: Option<nat>)
                      | Refused(error: ReadError)

  /** The bytes of a text between two offsets, as far as the text reaches. */
  function Window(text: Bytes, start: nat, end: nat): Bytes
    requires start <= end
  {
    text[Min(start, |text|)..Min(end, |text|)]
  }

  /** The part of one chunk the loop keeps. */
  function Retained(chunk: Bytes, at: nat, start: nat, end: nat): Bytes
    requires start <= end
  {
    var chunkEnd := at + |chunk|;
    if at < end && chunkEnd > start then
      chunk[(if start > at then start - at else 0)..Min(end, chunkEnd) - at]
    else []
  }

  lemma WindowGrows(text: Bytes, chunk: Bytes, start: nat, end: nat)
    requires start <= end
    ensures Window(text + chunk, start, end) == Window(text, start, end) + Retained(chunk, |text|, start, end)
  {
  }

  /** What has been hashed is the start of the file, provided the file kept still. */
  ghost predicate Faithful(file: FileHistory, tick: nat, hashed: Bytes) {
    Steady(file, tick) ==> |hashed| <= Size(file, 0) && hashed == file.content(0)[..|hashed|]
  }

  lemma ReadIsFaithful(file: FileHistory, tick: nat, hashed: Bytes, requested: nat)
    requires Faithful(file, tick, hashed) && 0 < requested <= Size(file, 0) - |hashed|
    ensures Faithful(file, tick + 1, hashed + ReadAt(file, tick + 1, requested, |hashed|))
    ensures ReadAt(file, tick + 1, requested, |hashed|) == [] ==> !Steady(file, tick + 1)
  {
    if Steady(file, tick + 1) {
      assert Steady(file, tick);
      assert file.content(tick + 1) == file.content(0);
    }
  }

  lemma WindowOfWhole(content: Bytes, offset: nat, maxBytes: nat)
    requires offset <= |content|
    ensures Window(content, offset, offset + Min(|content| - offset, maxBytes)) ==
            content[offset..Min(offset + maxBytes, |content|)]
  {
  }

  /** The one pass of `read_range_with_digest`: every byte is hashed and counted once, in order, and a
      window of them is kept. */
  method Stream(file: FileHistory, size: nat, offset: nat, rangeEnd: nat, lines: Utf8LineCounter)
    returns (complete: bool, bytes: Bytes, hashed: Bytes, tick: nat)
    requires size == Size(file, 0) && offset <= rangeEnd
    requires lines.Invariant() && lines.seen == []
    modifies lines
    ensures !complete ==> !Steady(file, tick)
    ensures complete ==> lines.Invariant() && lines.seen == hashed && |hashed| == size
    ensures complete ==> bytes == Window(hashed, offset, rangeEnd) && Faithful(file, tick, hashed)
  {
    bytes, hashed, tick := [], [], 0;
    var currentOffset := 0;
    while currentOffset < size
      invariant currentOffset == |hashed| <= size
      invariant lines.Invariant() && lines.seen == hashed
      invariant bytes == Window(hashed, offset, rangeEnd) && Faithful(file, tick, hashed)
    {
      var requested := Min(size - currentOffset, BUFFER_BYTES);
      var chunk := ReadAt(file, tick + 1, requested, currentOffset);
      ReadIsFaithful(file, tick, hashed, requested);
      WindowGrows(hashed, chunk, offset, rangeEnd);
      tick := tick + 1;
      if chunk == [] {
        return false, bytes, hashed, tick;
      }
      hashed := hashed + chunk;
      lines.Update(chunk);
      bytes := bytes + Retained(chunk, currentOffset, offset, rangeEnd);
      currentOffset := currentOffset + |chunk|;
    }
    complete := true;
  }

  /** `read_range_with_digest`. Whatever the reads returned, an answer is the answer for one fixed content. */
  method ReadRangeWithDigest(file: FileHistory, sha256: Bytes -> string, stillNamed: bool, offset: nat, maxBytes: nat)
    returns (r: Inspection)
    ensures r == Refused(PastEnd) <==> offset > Size(file, 0)
    ensures r.Inspected? && StampsAreHonest(file) ==>
              var content := file.content(0);
              && r.totalBytes == |content|
              && r.bytes == content[offset..Min(offset + maxBytes, |content|)]
              && r.sha256 == sha256(content)
              && r.lineCount == Answer(content)
    ensures Unchanging(file) && offset <= Size(file, 0) ==>
            (if stillNamed then r.Inspected? else r == Refused(PathRebound))
  {
    var before := Snapshot(file, 0);
    var size := before.0;
    if offset > size {
      return Refused(PastEnd);
    }
    var rangeEnd := offset + Min(size - offset, maxBytes);
    var lines := new Utf8LineCounter();
    var complete, bytes, hashed, tick := Stream(file, size, offset, rangeEnd, lines);
    if !complete || Snapshot(file, tick + 1) != before {
      return Refused(Changed);
    }
    assert Steady(file, tick + 1) ==> Steady(file, tick);
    assert Steady(file, tick) ==> hashed == file.content(0);
    WindowOfWhole(hashed, offset, maxBytes);
    if !stillNamed {
      return Refused(PathRebound);
    }
    var lineCount := lines.Finish();
    return Inspected(size, bytes, sha256(hashed), lineCount);
  }

  datatype RangeRead = RangeBytes(bytes: Bytes) | RangeRefused(error: ReadError)

  /** `read_range`: exactly the bytes asked for, or a refusal; a file that kept still is never refused. */
  method ReadRange(file: FileHistory, offset: nat, maxBytes: nat) returns (r: RangeRead)
    ensures r == RangeRefused(PastEnd) <==> offset > Size(file, 0)
    ensures r.RangeBytes? ==> |r.bytes| == Min(Size(file, 0) - offset, maxBytes)
    ensures Unchanging(file) && offset <= Size(file, 0) ==>
              r == RangeBytes(file.content(0)[offset..Min(offset + maxBytes, Size(file, 0))])
  {
    var size := Size(file, 0);
    if offset > size {
      return RangeRefused(PastEnd);
    }
    var endOffset := offset + Min(size - offset, maxBytes);
    var bytes: Bytes := [];
    var currentOffset, tick := offset, 1;
    while currentOffset < endOffset
      invariant offset <= currentOffset <= endOffset && |bytes| == currentOffset - offset
      invariant Unchanging(file) ==> bytes == file.content(0)[offset..currentOffset]
    {
      var chunk := ReadAt(file, tick, Min(endOffset - currentOffset, BUFFER_BYTES), currentOffset);
      assert Unchanging(file) ==> file.content(tick) == file.content(0);
      if chunk == [] {
        return RangeRefused(Changed);
      }
      tick := tick + 1;
      bytes := bytes + chunk;
      currentOffset := currentOffset + |chunk|;
    }
    return RangeBytes(bytes);
  }
}
