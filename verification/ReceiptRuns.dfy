/** Every run of the receipt journal: many processes that lock, rotate, append, run batches and stop anywhere
    between whole-record appends. */
module ReceiptRuns {
  import opened Options
  import opened Numerals
  import opened Receipt
  import opened ReceiptBudget
  import opened ReceiptBatch

  /** Who holds the journal lock, and how far its holder is. */
  datatype Section =
    | Free
    | Beginning(pid: U32)
    | Rotating(pid: U32)
    | Ready(pid: U32)
    | Settling(pid: U32)
    | Reserving(pid: U32, tool: string, paths: seq<string>)
    | Batch(pid: U32, tool: string, paths: seq<string>, start: Journal, calls: seq<Call>)
    | Finished(pid: U32)

  /** What goes by one process id: the next receipt number, the moment the process started, and the latest moment
      any process of that id has given a receipt. */
  datatype Process = Process(number: nat, since: nat, latest: nat)

  /** `history` is every record ever appended; rotation never shortens it. */
  datatype World = World(journal: Journal, history: Journal, section: Section, processes: map<U32, Process>)

  const Start: World := World([], [], Free, map[])

  datatype Step =
    | Lock(section: Section)
    | CheckSize
    | Rename
    | BeginPlain(tool: string, path: Option<string>, sha256: Option<string>, gitHead: Option<string>, ms: U128)
    | SettlePlain(id: Id, outcome: Outcome, sha256: Option<string>, gitHead: Option<string>, ms: U128)
    | Reserve
    | BatchCall(call: Call, at: U128)
    | LoseNumber(pid: U32)
    | Restart(pid: U32, moment: U128)
    | Leave

  function Current(w: World, pid: U32): Process {
    if pid in w.processes then w.processes[pid] else Process(0, 0, 0)
  }

  function NextNumber(w: World, pid: U32): nat {
    Current(w, pid).number
  }

  /** A process that can give a receipt now: it has numbers left, and its clock does not read a moment before
      its start. */
  predicate CanName(w: World, pid: U32, ms: U128) {
    NextNumber(w, pid) < TWO_TO_64 && ms >= Current(w, pid).since
  }

  function BeginOf(id: Id, step: Step): Record
    requires step.BeginPlain?
  {
    Begin(id, Some(step.tool), step.path, step.sha256, step.gitHead, Some(step.ms))
  }

  function SettleOf(step: Step): Record
    requires step.SettlePlain?
  {
    Settle(step.id, Some(OutcomeText(step.outcome)), step.sha256, step.gitHead, Some(step.ms))
  }

  /** The id its process gives a receipt now. */
  function NewId(w: World, pid: U32, ms: U128): Id
    requires NextNumber(w, pid) < TWO_TO_64
  {
    RenderId(ms, pid, NextNumber(w, pid))
  }

  predicate Enabled(w: World, step: Step) {
    match step
    case Lock(section) => w.section.Free? && (section.Beginning? || section.Settling?
                                              || (section.Reserving? && section.paths != []))
    case CheckSize => w.section.Beginning?
    case Rename => w.section.Rotating?
    case BeginPlain(_, _, _, _, ms) => w.section.Ready? && CanName(w, w.section.pid, ms)
    case SettlePlain(_, _, _, _, _) => w.section.Settling?
    case Reserve => w.section.Reserving?
    case BatchCall(call, at) =>
      && w.section.Batch?
      && (call.BeginCall? ==>
            && Begun(w.section.calls) < |w.section.paths| && CanName(w, w.section.pid, at)
            && call.ms == at && call.id == NewId(w, w.section.pid, at))
    case LoseNumber(_) => true
    case Restart(pid, moment) => (w.section.Free? || w.section.pid != pid) && moment > Current(w, pid).latest
    case Leave => !w.section.Free?
  }

  /** The process has given a receipt at this moment. */
  function Named(w: World, pid: U32, ms: nat): map<U32, Process> {
    var p := Current(w, pid);
    w.processes[pid := Process(p.number + 1, p.since, if ms > p.latest then ms else p.latest)]
  }

  /** One record appended under the lock; a begin record also uses up its process's number. */
  function Append(w: World, record: Record, pid: U32, section: Section): World {
    World(w.journal + [record], w.history + [record], section,
          if record.Begin? then Named(w, pid, GetOr(record.atMs, 0)) else w.processes)
  }

  function AfterReserve(w: World, reserved: nat): World
    requires w.section.Reserving?
  {
    var journal := if reserved > MAX_JOURNAL_BYTES || JournalBytes(w.journal) + reserved <= MAX_JOURNAL_BYTES
                   then w.journal else Rotated(w.journal);
    var section := if reserved <= MAX_JOURNAL_BYTES && JournalBytes(journal) + reserved <= MAX_JOURNAL_BYTES
                   then Batch(w.section.pid, w.section.tool, w.section.paths, journal, [])
                   else Finished(w.section.pid);
    w.(journal := journal, section := section)
  }

  /** A number used up without a receipt, or a process id taken by a process that starts later. */
  function NextProcesses(w: World, step: Step): map<U32, Process>
    requires step.LoseNumber? || step.Restart?
  {
    if step.LoseNumber? then Named(w, step.pid, 0)
    else w.processes[step.pid := Process(0, step.moment, Current(w, step.pid).latest)]
  }

  function After(w: World, step: Step): World
    requires Enabled(w, step)
    requires w.section.Batch? ==> Begun(w.section.calls) <= |w.section.paths|
  {
    match step
    case Lock(section) => w.(section := section)
    case CheckSize =>
      w.(section := if JournalBytes(w.journal) > MAX_JOURNAL_BYTES then Rotating(w.section.pid)
         else Ready(w.section.pid))
    case Rename => w.(journal := Rotated(w.journal), section := Ready(w.section.pid))
    case BeginPlain(_, _, _, _, ms) =>
      Append(w, BeginOf(NewId(w, w.section.pid, ms), step), w.section.pid, Finished(w.section.pid))
    case SettlePlain(_, _, _, _, _) => Append(w, SettleOf(step), w.section.pid, Finished(w.section.pid))
    case Reserve => AfterReserve(w, Reservation(w.section.tool, w.section.paths))
    case BatchCall(call, _) =>
      Append(w, Written(w.section.tool, w.section.paths, call, Begun(w.section.calls)), w.section.pid,
             w.section.(calls := w.section.calls + [call]))
    case LoseNumber(_) => w.(processes := NextProcesses(w, step))
    case Restart(_, _) => w.(processes := NextProcesses(w, step))
    case Leave => w.(section := Free)
  }

  // ---------------------------------------------------------------- the invariant

  /** The id has been given: by an earlier process of its process id, or under an earlier number. */
  ghost predicate Issued(processes: map<U32, Process>, id: Id) {
    exists ms: U128, pid: U32, number: U64 :: id == RenderId(ms, pid, number) && IssuedBy(processes, ms, pid, number)
  }

  predicate IssuedBy(processes: map<U32, Process>, ms: nat, pid: U32, number: nat) {
    && pid in processes && ms <= processes[pid].latest
    && (ms < processes[pid].since || number < processes[pid].number)
  }

  ghost predicate AllIssued(w: World) {
    forall id :: id in Order(w.journal) ==> Issued(w.processes, id)
  }

  /** Only its own records follow the journal that the batch in progress was admitted to. */
  ghost predicate BatchStands(w: World) {
    w.section.Batch? ==>
      && Begun(w.section.calls) <= |w.section.paths|
      && w.journal == w.section.start + Appended(w.section.tool, w.section.paths, w.section.calls)
  }

  /** That journal had room for the whole batch. */
  ghost predicate BatchAdmitted(w: World) {
    w.section.Batch? ==>
      JournalBytes(w.section.start) + Reservation(w.section.tool, w.section.paths) <= MAX_JOURNAL_BYTES
  }

  ghost predicate BatchIntact(w: World) {
    BatchStands(w) && BatchAdmitted(w)
  }

  ghost predicate BatchGenerated(w: World) {
    w.section.Batch? ==> Generated(w.section.calls)
  }

  /** The journal reports exactly what was ever begun and not settled since, as it was begun. */
  ghost predicate EvidenceKept(w: World) {
    DistinctBegins(w.journal) && Unsettled(w.journal) == Evidence(w.history)
  }

  ghost predicate Inv(w: World) {
    EvidenceKept(w) && AllIssued(w) && BatchIntact(w) && BatchGenerated(w)
  }

  /** A process only goes on counting, or a later one takes its id. */
  predicate Continues(p: Process, q: Process) {
    p.latest <= q.latest && ((q.since == p.since && q.number >= p.number) || q.since > p.latest)
  }

  lemma IssuedStays(s: map<U32, Process>, t: map<U32, Process>, id: Id)
    requires forall pid :: pid in s ==> pid in t && Continues(s[pid], t[pid])
    ensures Issued(s, id) ==> Issued(t, id)
  {
    if ms: U128, pid: U32, number: U64 :| id == RenderId(ms, pid, number) && IssuedBy(s, ms, pid, number) {
      assert IssuedBy(t, ms, pid, number);
    }
  }

  lemma NewIdIsNew(w: World, pid: U32, ms: U128)
    requires CanName(w, pid, ms) && AllIssued(w)
    ensures NewId(w, pid, ms) !in Order(w.journal)
    ensures Issued(Named(w, pid, ms), NewId(w, pid, ms))
  {
    var id := NewId(w, pid, ms);
    if id in Order(w.journal) {
      var ms': U128, pid': U32, number: U64 :| id == RenderId(ms', pid', number)
        && IssuedBy(w.processes, ms', pid', number);
      RenderIdInjective(ms, pid, NextNumber(w, pid), ms', pid', number);
    }
    assert IssuedBy(Named(w, pid, ms), ms, pid, NextNumber(w, pid));
  }

  // ---------------------------------------------------------------- appending

  lemma OneMoreEvidence(history: Journal, record: Record)
    ensures Evidence(history + [record]) == EvidenceStep(Evidence(history), record)
  {
    assert (history + [record])[..|history|] == history;
  }

  /** A begin record under an id its process gives now. */
  ghost predicate NamedNow(w: World, record: Record, pid: U32) {
    record.Begin? && exists ms: U128 :: CanName(w, pid, ms) && record.id == NewId(w, pid, ms) && record.atMs == Some(ms)
  }

  lemma AppendIssues(w: World, record: Record, pid: U32, section: Section)
    requires AllIssued(w) && (record.Begin? ==> NamedNow(w, record, pid))
    ensures AllIssued(Append(w, record, pid, section))
    ensures record.Begin? ==> record.id !in Order(w.journal)
  {
    var after := Append(w, record, pid, section);
    OneMoreOrder(w.journal, record);
    if record.Begin? {
      var ms: U128 :| CanName(w, pid, ms) && record.id == NewId(w, pid, ms) && record.atMs == Some(ms);
      NewIdIsNew(w, pid, ms);
    }
    forall id | id in Order(w.journal) ensures Issued(after.processes, id) {
      IssuedStays(w.processes, after.processes, id);
    }
  }

  lemma AppendKeeps(w: World, record: Record, pid: U32, section: Section)
    requires EvidenceKept(w) && AllIssued(w) && (record.Settle? ==> record.outcome.Some?)
    requires record.Begin? ==> NamedNow(w, record, pid)
    ensures EvidenceKept(Append(w, record, pid, section)) && AllIssued(Append(w, record, pid, section))
  {
    AppendIssues(w, record, pid, section);
    OneMoreOrder(w.journal, record);
    OneMoreEvidence(w.history, record);
    UnsettledStep(w.journal, record);
  }

  // ---------------------------------------------------------------- rotation

  lemma {:induction false} WithoutIdSubset(rs: seq<Receipt>, id: Id)
    requires forall r :: r in rs ==> Bare(r) == r
    ensures forall r :: r in WithoutId(rs, id) ==> Bare(r) == r
  {
    if rs != [] {
      WithoutIdSubset(rs[1..], id);
    }
  }

  lemma {:induction false} EvidenceIsBare(history: Journal)
    ensures forall r :: r in Evidence(history) ==> Bare(r) == r
  {
    if history != [] {
      var front, last := history[..|history| - 1], history[|history| - 1];
      EvidenceIsBare(front);
      if last.Settle? {
        WithoutIdSubset(Evidence(front), last.id);
      }
    }
  }

  lemma RotateKeeps(w: World, section: Section)
    requires EvidenceKept(w) && AllIssued(w)
    ensures EvidenceKept(w.(journal := Rotated(w.journal), section := section))
    ensures AllIssued(w.(journal := Rotated(w.journal), section := section))
  {
    RotationKeepsBegins(w.journal);
    RotationKeeps(w.journal);
    EvidenceIsBare(w.history);
    assert BareAll(Evidence(w.history)) == Evidence(w.history);
  }

  // ---------------------------------------------------------------- every step, every run

  lemma BatchCallAppends(start: Journal, tool: string, paths: seq<string>, calls: seq<Call>, call: Call,
                         journal: Journal)
    requires Begun(calls) <= |paths| && (call.BeginCall? ==> Begun(calls) < |paths|)
    requires journal == start + Appended(tool, paths, calls)
    ensures Begun(calls + [call]) <= |paths|
    ensures journal + [Written(tool, paths, call, Begun(calls))] == start + Appended(tool, paths, calls + [call])
  {
    OneMoreWritten(tool, paths, calls, call);
  }

  lemma WrittenIsNamed(w: World, s: Section, call: Call, at: U128)
    requires s == w.section && s.Batch? && Enabled(w, BatchCall(call, at)) && Begun(s.calls) <= |s.paths|
    ensures var record := Written(s.tool, s.paths, call, Begun(s.calls));
            && (record.Settle? ==> record.outcome.Some?)
            && (record.Begin? ==> NamedNow(w, record, s.pid))
  {
  }

  lemma BatchCallKeeps(w: World, s: Section, call: Call, at: U128)
    requires EvidenceKept(w) && AllIssued(w) && BatchStands(w) && s == w.section && Enabled(w, BatchCall(call, at))
    ensures var after := After(w, BatchCall(call, at)); EvidenceKept(after) && AllIssued(after) && BatchStands(after)
  {
    WrittenIsNamed(w, s, call, at);
    AppendKeeps(w, Written(s.tool, s.paths, call, Begun(s.calls)), s.pid, s.(calls := s.calls + [call]));
    BatchCallAppends(s.start, s.tool, s.paths, s.calls, call, w.journal);
  }

  lemma BatchCallGenerates(w: World, call: Call, at: U128)
    requires Enabled(w, BatchCall(call, at)) && BatchGenerated(w) && Begun(w.section.calls) <= |w.section.paths|
    ensures BatchGenerated(After(w, BatchCall(call, at)))
  {
    OneMoreGenerated(w.section.calls, call);
  }

  lemma ReserveKeeps(w: World, reserved: nat)
    requires EvidenceKept(w) && AllIssued(w) && w.section.Reserving?
    ensures var after := AfterReserve(w, reserved);
            && EvidenceKept(after) && AllIssued(after)
            && (after.section.Batch? ==>
                  && after.section == Batch(w.section.pid, w.section.tool, w.section.paths, after.journal, [])
                  && JournalBytes(after.journal) + reserved <= MAX_JOURNAL_BYTES)
  {
    RotateKeeps(w, AfterReserve(w, reserved).section);
  }

  lemma ReserveStepKeeps(w: World)
    requires Inv(w) && w.section.Reserving?
    ensures Inv(AfterReserve(w, Reservation(w.section.tool, w.section.paths)))
  {
    ReserveKeeps(w, Reservation(w.section.tool, w.section.paths));
    NothingAppended(AfterReserve(w, Reservation(w.section.tool, w.section.paths)).journal, w.section.tool,
                    w.section.paths);
  }

  lemma ProcessesKeep(w: World, step: Step)
    requires AllIssued(w) && Enabled(w, step) && (step.LoseNumber? || step.Restart?)
    ensures AllIssued(w.(processes := NextProcesses(w, step)))
  {
    forall id | id in Order(w.journal) ensures Issued(NextProcesses(w, step), id) {
      IssuedStays(w.processes, NextProcesses(w, step), id);
    }
  }

  lemma StepKeeps(w: World, step: Step)
    requires Inv(w) && Enabled(w, step)
    ensures Inv(After(w, step))
  {
    match step
    case Lock(_) =>
    case CheckSize =>
    case Rename => RotateKeeps(w, Ready(w.section.pid));
    case BeginPlain(_, _, _, _, ms) =>
      AppendKeeps(w, BeginOf(NewId(w, w.section.pid, ms), step), w.section.pid, Finished(w.section.pid));
    case SettlePlain(_, _, _, _, _) =>
      AppendKeeps(w, SettleOf(step), w.section.pid, Finished(w.section.pid));
    case Reserve => ReserveStepKeeps(w);
    case BatchCall(call, at) =>
      BatchCallKeeps(w, w.section, call, at);
      BatchCallGenerates(w, call, at);
    case LoseNumber(_) => ProcessesKeep(w, step);
    case Restart(_, _) => ProcessesKeep(w, step);
    case Leave =>
  }

  /** A run lists the worlds it went through, the first one empty. */
  ghost predicate Run(worlds: seq<World>, steps: seq<Step>) {
    && |worlds| == |steps| + 1 && worlds[0] == Start
    && forall i :: 0 <= i < |steps| ==> Follows(worlds[i], steps[i], worlds[i + 1])
  }

  ghost predicate Follows(w: World, step: Step, after: World) {
    && Enabled(w, step)
    && (w.section.Batch? ==> Begun(w.section.calls) <= |w.section.paths|)
    && after == After(w, step)
  }

  lemma {:induction false} RunsKeep(worlds: seq<World>, steps: seq<Step>, k: nat)
    requires Run(worlds, steps) && k < |worlds|
    ensures Inv(worlds[k])
  {
    if k == 0 {
      assert Order([]) == [];
    } else {
      RunsKeep(worlds, steps, k - 1);
      assert Follows(worlds[k - 1], steps[k - 1], worlds[k]);
      StepKeeps(worlds[k - 1], steps[k - 1]);
    }
  }

  /** In every world of every run, a receipt is reported as interrupted exactly when some begin record opened
      it with that evidence and no settle appended later named its id; the order is the order of the begins. */
  lemma NothingIsForgotten(worlds: seq<World>, steps: seq<Step>, k: nat, r: Receipt)
    requires Run(worlds, steps) && k < |worlds|
    ensures Unsettled(worlds[k].journal) == Evidence(worlds[k].history)
    ensures r in Unsettled(worlds[k].journal) <==> exists i :: OpenSince(worlds[k].history, i, r)
  {
    RunsKeep(worlds, steps, k);
    EvidenceMeans(worlds[k].history, r);
  }

  /** A begin adds, after whatever was interrupted, its own receipt with its own evidence. */
  lemma BeginIsReported(worlds: seq<World>, steps: seq<Step>, k: nat)
    requires Run(worlds, steps) && k < |steps| && steps[k].BeginPlain?
    ensures worlds[k].section.Ready?
    ensures var step, pid := steps[k], worlds[k].section.pid;
            && NextNumber(worlds[k], pid) < TWO_TO_64
            && Unsettled(worlds[k + 1].journal) == Unsettled(worlds[k].journal)
                 + [Receipt(RenderId(step.ms, pid, NextNumber(worlds[k], pid)), step.tool, step.path,
                            step.sha256, None, step.gitHead, None, None, step.ms, None)]
  {
    var w, step := worlds[k], steps[k];
    assert Follows(w, step, worlds[k + 1]);
    RunsKeep(worlds, steps, k + 1);
    var record := BeginOf(NewId(w, w.section.pid, step.ms), step);
    assert worlds[k + 1].journal == w.journal + [record];
    BeginAppends(w.journal, record);
  }

  /** A batch is admitted exactly if it fits the journal as it is or, failing that, once rotated. */
  lemma AdmittedIfItFits(worlds: seq<World>, steps: seq<Step>, k: nat)
    requires Run(worlds, steps) && k < |steps| && steps[k].Reserve?
    ensures worlds[k].section.Reserving?
    ensures var w := worlds[k];
            var reserved := Reservation(w.section.tool, w.section.paths);
            var fits, fitsRotated := JournalBytes(w.journal) + reserved <= 512 * 1024,
                                     JournalBytes(Rotated(w.journal)) + reserved <= 512 * 1024;
            && (worlds[k + 1].section.Batch? <==> fits || fitsRotated)
            && (worlds[k + 1].section.Batch? ==> worlds[k + 1].journal == if fits then w.journal
                else Rotated(w.journal))
  {
    assert Follows(worlds[k], steps[k], worlds[k + 1]);
  }

  // ---------------------------------------------------------------- when the journal is rotated

  /** Only a journal past its limit is about to be rotated before a plain begin, a begin follows on a journal within
      its limit or on a rotated one, and no batch is empty. */
  ghost predicate SizeKnown(w: World) {
    match w.section
    case Rotating(_) => JournalBytes(w.journal) > 512 * 1024
    case Ready(_) =>
      JournalBytes(w.journal) <= 512 * 1024 || exists j :: w.journal == Rotated(j) && JournalBytes(j) > 512 * 1024
    case Reserving(_, _, paths) => paths != []
    case Batch(_, _, paths, _, _) => paths != []
    case _ => true
  }

  lemma StepKeepsSize(w: World, step: Step, after: World)
    requires SizeKnown(w) && Follows(w, step, after)
    ensures SizeKnown(after)
  {
    if step.Rename? {
      assert after.journal == Rotated(w.journal);
    }
  }

  /** In every run. */
  lemma {:induction false} SizesAreKnown(worlds: seq<World>, steps: seq<Step>, k: nat)
    requires Run(worlds, steps) && k < |worlds|
    ensures SizeKnown(worlds[k])
  {
    if k > 0 {
      SizesAreKnown(worlds, steps, k - 1);
      StepKeepsSize(worlds[k - 1], steps[k - 1], worlds[k]);
    }
  }

  /** In every run a batch in progress stands directly on the journal it was admitted to, and as long as its
      caller settles only what the batch began, each entry once, the journal is within its limit. */
  lemma BatchesStayWithin(worlds: seq<World>, steps: seq<Step>, k: nat)
    requires Run(worlds, steps) && k < |worlds|
    ensures BatchIntact(worlds[k])
    ensures var w := worlds[k];
            w.section.Batch? && Disciplined(w.section.calls) ==> JournalBytes(w.journal) <= 512 * 1024
  {
    RunsKeep(worlds, steps, k);
    var s := worlds[k].section;
    if s.Batch? {
      DisciplinedStaysWithin(s.start, s.tool, s.paths, s.calls);
    }
  }

  lemma {:induction false} FilterIsSubset(rs: seq<Receipt>, r: Receipt)
    requires r in FilterInterrupted(rs)
    ensures r in rs
  {
    if r !in FilterInterrupted(rs[1..]) {
      assert r == rs[0];
    } else {
      FilterIsSubset(rs[1..], r);
    }
  }

  /** A settle that comes after any number of rotations still finds its receipt: it is reported settled with
      its begin evidence, and every other interrupted receipt stays, in order. */
  lemma LateSettleMatches(worlds: seq<World>, steps: seq<Step>, k: nat, r: Receipt)
    requires Run(worlds, steps) && k < |steps| && r in Unsettled(worlds[k].journal)
    requires steps[k].SettlePlain? && steps[k].id == r.id
    ensures var after, step := worlds[k + 1].journal, steps[k];
            && r.id in Receipts(after)
            && Receipts(after)[r.id] == r.(outcome := Some(OutcomeText(step.outcome)), afterSha256 := step.sha256,
                                           afterGitHead := step.gitHead, settledAtMs := Some(step.ms))
            && Unsettled(after) == WithoutId(Unsettled(worlds[k].journal), r.id)
  {
    var journal := worlds[k].journal;
    assert Follows(worlds[k], steps[k], worlds[k + 1]);
    RunsKeep(worlds, steps, k);
    RunsKeep(worlds, steps, k + 1);
    CollectIsDistinct(Order(journal), Receipts(journal));
    FilterIsSubset(All(journal), r);
    assert worlds[k + 1].journal == journal + [SettleOf(steps[k])];
    assert (journal + [SettleOf(steps[k])])[..|journal|] == journal;
    UnsettledStep(journal, SettleOf(steps[k]));
  }
}
