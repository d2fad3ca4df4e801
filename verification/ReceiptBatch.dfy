/** Rotation, reservation and `FileReceiptBatch` of `fs/receipt.rs`, over a journal file changed in place. */
module ReceiptBatch {
  import opened Options
  import opened Receipt
  import opened ReceiptBudget

  /** The journal as its lock holder sees it. */
  class JournalFile {
    var records: Journal

    constructor (records: Journal)
      ensures this.records == records
    {
      this.records := records;
    }

    method Append(record: Record)
      modifies this
      ensures records == old(records) + [record]
    {
      records := records + [record];
    }

    /** `rotate`: rewrite the journal as one begin record per interrupted receipt. */
    method Rotate()
      modifies this
      ensures records == Rotated(old(records))
    {
      var all := AllFromPath(records);
      var unsettled := FilterInterrupted(all);
      var preserved: Journal := [];
      assert unsettled[..0] == [];
      for i := 0 to |unsettled|
        invariant preserved == BeginValues(unsettled[..i])
        invariant records == old(records)
      {
        assert unsettled[..i + 1][..i] == unsettled[..i];
        preserved := preserved + [BeginValue(unsettled[i])];
      }
      assert unsettled[..|unsettled|] == unsettled;
      records := preserved;
    }

    /** `rotate_if_oversized`, before a plain begin: only a journal already past the limit is rotated. */
    method RotateIfOversized()
      modifies this
      ensures records == if JournalBytes(old(records)) > MAX_JOURNAL_BYTES then Rotated(old(records)) else old(records)
      ensures SameEvidence(Unsettled(records), Unsettled(old(records)))
      ensures forall id :: id in Order(records) ==> id in Order(old(records))
      ensures DistinctBegins(old(records)) ==> DistinctBegins(records)
    {
      if JournalBytes(records) > MAX_JOURNAL_BYTES {
        Rotate();
        RotationKeeps(old(records));
        RotationKeepsBegins(old(records));
      }
    }

    /** `begin_record`, under the lock: whether or not the journal is rotated first, every interrupted receipt
        stays reported, in order, and the new one comes last. */
    method BeginRecord(tool: string, path: Option<string>, digest: Option<string>, gitHead: Option<string>,
                       ms: U128, pid: U32, sequence: U64) returns (id: Id)
      modifies this
      ensures id == RenderId(ms, pid, sequence)
      ensures DistinctBegins(old(records)) && id !in Order(old(records)) ==>
                && DistinctBegins(records)
                && SameEvidence(Unsettled(records),
                                Unsettled(old(records)) + [Receipt(id, tool, path, digest, None, gitHead, None, None,
                                                                   ms, None)])
    {
      RotateIfOversized();
      id := RenderId(ms, pid, sequence);
      var receipt := Receipt(id, tool, path, digest, None, gitHead, None, None, ms, None);
      ghost var rotated := records;
      Append(BeginValue(receipt));
      if DistinctBegins(old(records)) && id !in Order(old(records)) {
        AddsBegin(rotated, BeginValue(receipt));
        BeginAppends(rotated, BeginValue(receipt));
        assert Opened(BeginValue(receipt)) == receipt;
        SameWithOneMore(Unsettled(rotated), Unsettled(old(records)), receipt);
      }
    }

    /** `settle_record`, under the lock: the receipt it names, if there is one, has this outcome and this evidence from
        now on, and is no longer interrupted. */
    method SettleRecord(id: Id, outcome: Outcome, digest: Option<string>, gitHead: Option<string>, ms: U128)
      modifies this
      ensures records == old(records) + [Settle(id, Some(OutcomeText(outcome)), digest, gitHead, Some(ms))]
      ensures id in Receipts(old(records)) ==>
                && id in Receipts(records)
                && Receipts(records)[id] == Receipts(old(records))[id].(
                     outcome := Some(OutcomeText(outcome)), afterSha256 := digest, afterGitHead := gitHead,
                     settledAtMs := Some(ms))
      ensures DistinctBegins(old(records)) ==>
                DistinctBegins(records) && Unsettled(records) == WithoutId(Unsettled(old(records)), id)
    {
      ghost var before := records;
      var record := Settle(id, Some(OutcomeText(outcome)), digest, gitHead, Some(ms));
      Append(record);
      assert records[..|before|] == before;
      if DistinctBegins(before) {
        OneMoreOrder(before, record);
        SettleRemoves(before, record);
      }
    }

    /** `reserve_file_batch`: room for the whole batch, rotating once if need be, or a refusal. */
    method ReserveFileBatch(reserved: nat) returns (ok: bool)
      modifies this
      ensures ok ==> JournalBytes(records) + reserved <= MAX_JOURNAL_BYTES
      ensures ok <==> reserved <= 512 * 1024
                      && (JournalBytes(old(records)) + reserved <= 512 * 1024
                          || JournalBytes(Rotated(old(records))) + reserved <= 512 * 1024)
      ensures records == if reserved > MAX_JOURNAL_BYTES || JournalBytes(old(records)) + reserved <= MAX_JOURNAL_BYTES
                         then old(records) else Rotated(old(records))
    {
      if reserved > MAX_JOURNAL_BYTES {
        return false;
      }
      if JournalBytes(records) + reserved > MAX_JOURNAL_BYTES {
        Rotate();
      }
      return JournalBytes(records) + reserved <= MAX_JOURNAL_BYTES;
    }
  }

  /** The same receipts in the same order, as their begin records tell them. */
  ghost predicate SameEvidence(a: seq<Receipt>, b: seq<Receipt>) {
    BareAll(a) == BareAll(b)
  }

  lemma SameWithOneMore(a: seq<Receipt>, b: seq<Receipt>, r: Receipt)
    requires SameEvidence(a, b)
    ensures SameEvidence(a + [r], b + [r])
  {
    assert BareAll(a + [r]) == BareAll(a) + [Bare(r)] && BareAll(b + [r]) == BareAll(b) + [Bare(r)];
  }

  lemma AddsBegin(journal: Journal, record: Record)
    requires DistinctBegins(journal) && record.Begin? && record.id !in Order(journal)
    ensures DistinctBegins(journal + [record])
  {
    OneMoreOrder(journal, record);
  }

  lemma {:induction false} BytesOfConcat(a: Journal, b: Journal)
    ensures JournalBytes(a + b) == JournalBytes(a) + JournalBytes(b)
  {
    if b == [] {
      assert a + b == a;
    } else {
      BytesOfConcat(a, b[..|b| - 1]);
      assert (a + b)[..|a + b| - 1] == a + b[..|b| - 1];
    }
  }

  lemma {:induction false} RoomsGrow(beginRoom: string -> nat, settleRoom: nat, paths: seq<string>, k: nat)
    requires k <= |paths|
    ensures Rooms(beginRoom, settleRoom, paths[..k]) <= Rooms(beginRoom, settleRoom, paths)
  {
    if k < |paths| {
      RoomsGrow(beginRoom, settleRoom, paths[..|paths| - 1], k);
      assert paths[..|paths| - 1][..k] == paths[..k];
    } else {
      assert paths[..k] == paths;
    }
  }

  lemma ReservationGrows(tool: string, paths: seq<string>, k: nat)
    requires k <= |paths|
    ensures Reservation(tool, paths[..k]) <= Reservation(tool, paths)
  {
    RoomsGrow(BeginRoom(tool), RecordBytes(SettleTemplate()), paths, k);
  }

  // ---------------------------------------------------------------- what a batch's caller does

  /** One record a batch's caller has appended: `BeginFile` begins the next reserved path under an id of its
      own, `SettleFile` settles whatever id it is given. */
  datatype Call =
    | BeginCall(id: Id, digest: Option<string>, ms: U128)
    | SettleCall(id: Id, outcome: Outcome, digest: Option<string>, ms: U128)

  /** How many entries a caller has begun. */
  function Begun(calls: seq<Call>): (n: nat)
    ensures n <= |calls|
  {
    if calls == [] then 0
    else Begun(calls[..|calls| - 1]) + if calls[|calls| - 1].BeginCall? then 1 else 0
  }

  function Written(tool: string, paths: seq<string>, call: Call, next: nat): Record
    requires call.BeginCall? ==> next < |paths|
  {
    match call
    case BeginCall(id, digest, ms) => BatchBegin(id, tool, paths[next], digest, ms)
    case SettleCall(id, outcome, digest, ms) => BatchSettle(id, outcome, digest, ms)
  }

  /** What the calls append: begins take the reserved paths in order. */
  function Appended(tool: string, paths: seq<string>, calls: seq<Call>): Journal
    requires Begun(calls) <= |paths|
  {
    if calls == [] then [] else
    var front := calls[..|calls| - 1];
    Appended(tool, paths, front) + [Written(tool, paths, calls[|calls| - 1], Begun(front))]
  }

  /** The caller keeps to the batch: no entry beyond the reserved ones, no more settles than begins at any
      point, and every call of the kind `fits` asks for. */
  ghost predicate Orderly(paths: seq<string>, calls: seq<Call>, fits: Call -> bool) {
    calls != [] ==>
      var front, last := calls[..|calls| - 1], calls[|calls| - 1];
      && Orderly(paths, front, fits) && Begun(calls) <= |paths| && fits(last)
      && (last.SettleCall? ==> |front| - Begun(front) < Begun(front))
  }

  lemma NothingAppended(start: Journal, tool: string, paths: seq<string>)
    ensures Begun([]) == 0 && start + Appended(tool, paths, []) == start
  {
  }

  lemma OneMoreWritten(tool: string, paths: seq<string>, front: seq<Call>, last: Call)
    requires Begun(front) <= |paths| && (last.BeginCall? ==> Begun(front) < |paths|)
    ensures Begun(front + [last]) == Begun(front) + if last.BeginCall? then 1 else 0
    ensures Appended(tool, paths, front + [last]) ==
            Appended(tool, paths, front) + [Written(tool, paths, last, Begun(front))]
  {
    assert (front + [last])[..|front|] == front;
  }

  function BegunIds(calls: seq<Call>): set<Id> {
    if calls == [] then {} else
    BegunIds(calls[..|calls| - 1]) + if calls[|calls| - 1].BeginCall? then {calls[|calls| - 1].id} else {}
  }

  function SettledIds(calls: seq<Call>): set<Id> {
    if calls == [] then {} else
    SettledIds(calls[..|calls| - 1]) + if calls[|calls| - 1].SettleCall? then {calls[|calls| - 1].id} else {}
  }

  /** The caller settles only what this batch began for it, each entry at most once, and gives digests as
      SHA-256 is rendered. */
  ghost predicate Disciplined(calls: seq<Call>) {
    calls != [] ==>
      var front, last := calls[..|calls| - 1], calls[|calls| - 1];
      && Disciplined(front) && HexDigest(last.digest)
      && (last.SettleCall? ==> last.id in BegunIds(front) && last.id !in SettledIds(front))
  }

  /** Every entry was begun under an id this program generates. */
  ghost predicate Generated(calls: seq<Call>) {
    forall c :: c in calls && c.BeginCall? ==> GeneratedId(c.id)
  }

  lemma OneMoreGenerated(front: seq<Call>, last: Call)
    requires Generated(front) && (last.BeginCall? ==> GeneratedId(last.id))
    ensures Generated(front + [last])
  {
  }

  /** A batch that holds the journal lock. `start` is the journal it was admitted to, `calls` what its caller
      has done. */
  class FileReceiptBatch {
    const journal: JournalFile
    const tool: string
    const paths: seq<string>
    var nextPath: nat
    ghost const start: Journal
    ghost var calls: seq<Call>

    /** Nothing but the batch's own records follows the journal it was admitted to, in particular no
        rotation and no foreign record. */
    ghost predicate Undisturbed()
      reads this, journal
    {
      nextPath == Begun(calls) <= |paths| && journal.records == start + Appended(tool, paths, calls)
    }

    ghost predicate Valid()
      reads this, journal
    {
      Undisturbed() && Generated(calls) && JournalBytes(start) + Reservation(tool, paths) <= MAX_JOURNAL_BYTES
    }

    constructor (journal: JournalFile, tool: string, paths: seq<string>)
      ensures Undisturbed()
      ensures this.journal == journal && this.tool == tool && this.paths == paths
      ensures nextPath == 0 && start == journal.records && calls == []
    {
      this.journal, this.tool, this.paths, nextPath := journal, tool, paths, 0;
      start, calls := journal.records, [];
      new;
      NothingAppended(start, tool, paths);
    }

    method Push(call: Call, record: Record)
      requires Undisturbed() && (call.BeginCall? ==> nextPath < |paths|)
               && record == Written(tool, paths, call, nextPath)
      modifies this, journal
      ensures Undisturbed() && calls == old(calls) + [call]
      ensures journal.records == old(journal.records) + [record]
    {
      ghost var written := Appended(tool, paths, calls);
      journal.Append(record);
      OneMoreWritten(tool, paths, calls, call);
      assert start + (written + [record]) == start + written + [record];
      calls := calls + [call];
      nextPath := nextPath + if call.BeginCall? then 1 else 0;
    }

    /** `begin_file`: only the next reserved path, in order. */
    method BeginFile(path: string, digest: Option<string>, ms: U128, pid: U32, sequence: U64) returns (r: Option<Id>)
      requires Undisturbed()
      modifies this, journal
      ensures Undisturbed() && (old(Valid()) ==> Valid())
      ensures r.Some? <==> old(nextPath) < |paths| && paths[old(nextPath)] == path
      ensures r.Some? ==>
                && r.value == RenderId(ms, pid, sequence)
                && calls == old(calls) + [BeginCall(r.value, digest, ms)]
                && journal.records == old(journal.records)
                   + [Begin(r.value, Some(tool), Some(path), digest, None, Some(ms))]
      ensures r.None? ==> unchanged(this) && unchanged(journal)
      ensures old(Valid()) && Disciplined(calls) ==> JournalBytes(journal.records) <= MAX_JOURNAL_BYTES
    {
      r := None;
      if nextPath < |paths| && paths[nextPath] == path {
        var id := RenderId(ms, pid, sequence);
        if Generated(calls) {
          OneMoreGenerated(calls, BeginCall(id, digest, ms));
        }
        Push(BeginCall(id, digest, ms), BatchBegin(id, tool, path, digest, ms));
        r := Some(id);
      }
      DisciplinedStaysWithin(start, tool, paths, calls);
    }

    /** `settle_file`: whatever id the caller names. */
    method SettleFile(id: Id, outcome: Outcome, digest: Option<string>, ms: U128)
      requires Undisturbed()
      modifies this, journal
      ensures Undisturbed() && (old(Valid()) ==> Valid())
      ensures calls == old(calls) + [SettleCall(id, outcome, digest, ms)]
      ensures journal.records ==
              old(journal.records) + [Settle(id, Some(OutcomeText(outcome)), digest, None, Some(ms))]
      ensures old(Valid()) && Disciplined(calls) ==> JournalBytes(journal.records) <= MAX_JOURNAL_BYTES
    {
      if Generated(calls) {
        OneMoreGenerated(calls, SettleCall(id, outcome, digest, ms));
      }
      Push(SettleCall(id, outcome, digest, ms), BatchSettle(id, outcome, digest, ms));
      DisciplinedStaysWithin(start, tool, paths, calls);
    }
  }

  /** `begin_file_batch`, once the lock is held. */
  method BeginFileBatch(journal: JournalFile, tool: string, paths: seq<string>) returns (batch: FileReceiptBatch?)
    modifies journal
    ensures batch != null ==> fresh(batch) && batch.journal == journal && batch.Valid()
                              && batch.tool == tool && batch.paths == paths && batch.start == journal.records
    ensures batch == null <==>
            || paths == [] || Reservation(tool, paths) > MAX_JOURNAL_BYTES
            || (JournalBytes(old(journal.records)) + Reservation(tool, paths) > MAX_JOURNAL_BYTES
                && JournalBytes(Rotated(old(journal.records))) + Reservation(tool, paths) > MAX_JOURNAL_BYTES)
  {
    if paths == [] {
      return null;
    }
    var reserved := FileBatchReservation(tool, paths);
    var ok := journal.ReserveFileBatch(reserved);
    if !ok {
      return null;
    }
    batch := new FileReceiptBatch(journal, tool, paths);
  }

  // ---------------------------------------------------------------- the budget of every batch

  // The accounting, for any measure of records and any room set aside for them.

  ghost function Sum(size: Record -> nat, journal: Journal): nat {
    if journal == [] then 0 else Sum(size, journal[..|journal| - 1]) + size(journal[|journal| - 1])
  }

  ghost function Owed(settleRoom: nat, count: nat): nat {
    if count == 0 then 0 else Owed(settleRoom, count - 1) + settleRoom
  }

  ghost predicate RecordsFit(size: Record -> nat, beginRoom: string -> nat, settleRoom: nat, tool: string,
                             paths: seq<string>, fits: Call -> bool) {
    forall call, next: nat {:trigger Written(tool, paths, call, next)} ::
      fits(call) && (call.BeginCall? ==> next < |paths|) ==>
      size(Written(tool, paths, call, next)) <= if call.BeginCall? then beginRoom(paths[next]) else settleRoom
  }

  /** What a call leaves unused: a begin adds the room of its entry, every record takes its size. */
  ghost function Unused(size: Record -> nat, beginRoom: string -> nat, settleRoom: nat,
                        tool: string, paths: seq<string>, calls: seq<Call>): int
    requires Begun(calls) <= |paths|
  {
    if calls == [] then 0 else
    var front, last := calls[..|calls| - 1], calls[|calls| - 1];
    Unused(size, beginRoom, settleRoom, tool, paths, front)
    + (if last.BeginCall? then beginRoom(paths[Begun(front)]) + settleRoom else 0)
    - size(Written(tool, paths, last, Begun(front)))
  }

  lemma OneMoreRoom(beginRoom: string -> nat, settleRoom: nat, paths: seq<string>, k: nat)
    requires k < |paths|
    ensures Rooms(beginRoom, settleRoom, paths[..k + 1])
            == Rooms(beginRoom, settleRoom, paths[..k]) + beginRoom(paths[k]) + settleRoom
  {
    assert paths[..k + 1][..k] == paths[..k];
  }

  /** Used and unused together are the room of the entries begun so far. */
  lemma {:induction false} UsedAndUnused(size: Record -> nat, beginRoom: string -> nat, settleRoom: nat,
                                         tool: string, paths: seq<string>, calls: seq<Call>)
    requires Begun(calls) <= |paths|
    ensures Sum(size, Appended(tool, paths, calls)) + Unused(size, beginRoom, settleRoom, tool, paths, calls)
            == Rooms(beginRoom, settleRoom, paths[..Begun(calls)])
  {
    if calls == [] {
      assert paths[..0] == [];
    } else {
      var front := calls[..|calls| - 1];
      UsedAndUnused(size, beginRoom, settleRoom, tool, paths, front);
      if calls[|calls| - 1].BeginCall? {
        OneMoreRoom(beginRoom, settleRoom, paths, Begun(front));
      }
    }
  }

  lemma OneMoreOwed(settleRoom: nat, count: nat)
    ensures Owed(settleRoom, count + 1) == Owed(settleRoom, count) + settleRoom
  {
  }

  /** The settles a caller still owes fit what is unused. */
  lemma {:induction false} OwedIsUnused(size: Record -> nat, beginRoom: string -> nat, settleRoom: nat,
                                        tool: string, paths: seq<string>, calls: seq<Call>, fits: Call -> bool)
    requires RecordsFit(size, beginRoom, settleRoom, tool, paths, fits) && Orderly(paths, calls, fits)
    ensures Begun(calls) <= |paths| && |calls| - Begun(calls) <= Begun(calls)
    ensures Owed(settleRoom, 2 * Begun(calls) - |calls|) <= Unused(size, beginRoom, settleRoom, tool, paths, calls)
  {
    if calls != [] {
      var front := calls[..|calls| - 1];
      OwedIsUnused(size, beginRoom, settleRoom, tool, paths, front, fits);
      var owed := 2 * Begun(front) - |front|;
      OneMoreOwed(settleRoom, if calls[|calls| - 1].BeginCall? then owed else owed - 1);
    }
  }

  lemma {:induction false} SumIsBytes(journal: Journal)
    ensures Sum(RecordBytes, journal) == JournalBytes(journal)
  {
    if journal != [] {
      SumIsBytes(journal[..|journal| - 1]);
    }
  }

  /** A call whose id and digest are no longer than generated ones. */
  predicate UsualSize(call: Call) {
    IdFits(call.id) && DigestFits(call.digest)
  }

  lemma OneCallFits(tool: string, paths: seq<string>, call: Call, next: nat)
    requires UsualSize(call) && (call.BeginCall? ==> next < |paths|)
    ensures RecordBytes(Written(tool, paths, call, next)) <=
            if call.BeginCall? then BeginRoom(tool)(paths[next]) else RecordBytes(SettleTemplate())
  {
    match call
    case BeginCall(id, digest, ms) => BeginFits(id, tool, paths[next], digest, ms);
    case SettleCall(id, outcome, digest, ms) => SettleFits(id, outcome, digest, ms);
  }

  lemma CallsFit(tool: string, paths: seq<string>, settleRoom: nat)
    ensures settleRoom == RecordBytes(SettleTemplate()) ==>
              RecordsFit(RecordBytes, BeginRoom(tool), settleRoom, tool, paths, UsualSize)
  {
    forall call, next: nat | UsualSize(call) && (call.BeginCall? ==> next < |paths|)
      ensures RecordBytes(Written(tool, paths, call, next)) <=
              if call.BeginCall? then BeginRoom(tool)(paths[next]) else RecordBytes(SettleTemplate())
    {
      OneCallFits(tool, paths, call, next);
    }
  }

  /** What an orderly caller has appended fits the room of the entries it has begun. */
  lemma AppendedFits(size: Record -> nat, beginRoom: string -> nat, settleRoom: nat,
                     tool: string, paths: seq<string>, calls: seq<Call>, fits: Call -> bool)
    requires RecordsFit(size, beginRoom, settleRoom, tool, paths, fits)
    ensures Orderly(paths, calls, fits) ==> Begun(calls) <= |paths|
    ensures Orderly(paths, calls, fits) ==>
              Sum(size, Appended(tool, paths, calls)) <= Rooms(beginRoom, settleRoom, paths[..Begun(calls)])
  {
    if Orderly(paths, calls, fits) {
      OwedIsUnused(size, beginRoom, settleRoom, tool, paths, calls, fits);
      UsedAndUnused(size, beginRoom, settleRoom, tool, paths, calls);
    }
  }

  lemma AppendedIsReserved(tool: string, paths: seq<string>, calls: seq<Call>)
    requires Orderly(paths, calls, UsualSize)
    ensures Begun(calls) <= |paths|
    ensures JournalBytes(Appended(tool, paths, calls)) <= Reservation(tool, paths[..Begun(calls)])
  {
    var settleRoom := RecordBytes(SettleTemplate());
    CallsFit(tool, paths, settleRoom);
    AppendedFits(RecordBytes, BeginRoom(tool), settleRoom, tool, paths, calls, UsualSize);
    SumIsBytes(Appended(tool, paths, calls));
  }

  /** A batch that was admitted keeps the journal within its limit after every call of every orderly caller. */
  lemma BudgetHolds(start: Journal, tool: string, paths: seq<string>, calls: seq<Call>)
    ensures JournalBytes(start) + Reservation(tool, paths) <= MAX_JOURNAL_BYTES && Orderly(paths, calls, UsualSize) ==>
              Begun(calls) <= |paths| && JournalBytes(start + Appended(tool, paths, calls)) <= MAX_JOURNAL_BYTES
  {
    if JournalBytes(start) + Reservation(tool, paths) <= MAX_JOURNAL_BYTES && Orderly(paths, calls, UsualSize) {
      AppendedIsReserved(tool, paths, calls);
      BytesOfConcat(start, Appended(tool, paths, calls));
      ReservationGrows(tool, paths, Begun(calls));
    }
  }

  lemma {:induction false} DisciplineCounts(calls: seq<Call>)
    requires Disciplined(calls)
    ensures |calls| - Begun(calls) == |SettledIds(calls)| && SettledIds(calls) <= BegunIds(calls)
            && |BegunIds(calls)| <= Begun(calls)
  {
    if calls != [] {
      DisciplineCounts(calls[..|calls| - 1]);
    }
  }

  lemma {:induction false} BegunIdsFit(calls: seq<Call>)
    requires Generated(calls)
    ensures forall id :: id in BegunIds(calls) ==> IdFits(id)
  {
    if calls != [] {
      var front, last := calls[..|calls| - 1], calls[|calls| - 1];
      assert forall c :: c in front ==> c in calls;
      BegunIdsFit(front);
      if last.BeginCall? {
        assert last in calls;
        GeneratedIdFits(last.id);
      }
    }
  }

  lemma {:induction false} DisciplinedIsOrderly(paths: seq<string>, calls: seq<Call>)
    requires Disciplined(calls) && Generated(calls) && Begun(calls) <= |paths|
    ensures Orderly(paths, calls, UsualSize)
  {
    if calls != [] {
      var front, last := calls[..|calls| - 1], calls[|calls| - 1];
      assert forall c :: c in front ==> c in calls;
      DisciplinedIsOrderly(paths, front);
      HexDigestFits(last.digest);
      DisciplineCounts(front);
      BegunIdsFit(calls);
      BegunIdsFit(front);
      if last.SettleCall? {
        SettleIsOwed(BegunIds(front), SettledIds(front), last.id);
      }
    }
  }

  lemma SettleIsOwed(begun: set<Id>, settled: set<Id>, id: Id)
    requires settled <= begun && id in begun && id !in settled
    ensures |settled| < |begun|
  {
    assert settled < begun;
    SmallerSet(settled, begun);
  }

  lemma {:induction false} SmallerSet(a: set<Id>, b: set<Id>)
    requires a < b
    ensures |a| < |b|
  {
    assert b == a + (b - a) && b - a != {};
  }

  /** Through every prefix of a batch whose caller is disciplined, the journal stays within its limit. */
  lemma DisciplinedStaysWithin(start: Journal, tool: string, paths: seq<string>, calls: seq<Call>)
    ensures JournalBytes(start) + Reservation(tool, paths) <= MAX_JOURNAL_BYTES
            && Disciplined(calls) && Generated(calls) && Begun(calls) <= |paths| ==>
              JournalBytes(start + Appended(tool, paths, calls)) <= MAX_JOURNAL_BYTES
  {
    if Disciplined(calls) && Generated(calls) && Begun(calls) <= |paths| {
      DisciplinedIsOrderly(paths, calls);
      BudgetHolds(start, tool, paths, calls);
    }
  }
}
