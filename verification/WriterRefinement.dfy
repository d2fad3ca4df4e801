/** What readers see of the writer protocol: a sequence of indivisible edits. */
module WriterRefinement {
  import opened Options
  import opened WriterProtocol
  import opened WriterInvariant

  // ---------------------------------------------------------------- modes

  /** All three execute bits are set, or none is, as asked. */
  predicate ExecutableAs(executable: bool, mode: Mode) {
    mode & 0x49 == if executable then 0x49 else 0
  }

  predicate SameOtherBits(a: Mode, b: Mode) {
    a & 0xFB6 == b & 0xFB6
  }

  /** The new mode has the execute bits that were asked for and all other bits as they were. */
  lemma ModeMeans(request: Request, before: Mode)
    requires request.Chmod?
    ensures ExecutableAs(request.executable, WithMode(request, before))
    ensures SameOtherBits(WithMode(request, before), before)
    ensures WithMode(request, before) == before <==> ExecutableAs(request.executable, before)
  {
  }

  // ---------------------------------------------------------------- what a writer reports

  /** Success is reported only for a change that took effect, or for a mode that was already right; a
      replacement that reports failure has changed nothing; a mode is changed only on an accepted file that has
      another one. */
  ghost predicate ReportFits(w: Writer) {
    SuccessFits(w) && FailureFits(w)
  }

  ghost predicate SuccessFits(w: Writer) {
    w.pc == Done(true) ==>
      w.effects == 1
      || (w.request.Chmod? && w.request.accepts(w.seen) && ExecutableAs(w.request.executable, w.seen.mode))
  }

  ghost predicate FailureFits(w: Writer) {
    w.pc == Done(false) && w.request.Replace? ==> w.effects == 0
  }

  ghost predicate AcceptedFits(w: Writer) {
    w.request.Chmod? && (w.pc.Checked? || w.pc.Validated? || w.pc.Counted?) ==>
      w.request.accepts(w.seen) && !ExecutableAs(w.request.executable, w.seen.mode)
  }

  ghost predicate ReportsFit(s: State) {
    forall id :: id in s.writers ==> ReportFits(s.writers[id]) && AcceptedFits(s.writers[id])
  }

  /** The steps with which a writer can end. */
  predicate MayEnd(a: Action) {
    a.Check? || a.Unlink? || a.Release? || a.Fail?
  }

  lemma NotYetDone(s: State, id: Wid, w: Writer, a: Action, t: State)
    requires !Outside(a) && !MayEnd(a) && WriterNext(s, id, w, a, t) && id in s.writers && s.writers[id] == w
    ensures id in t.writers && !t.writers[id].pc.Done?
  {
  }

  lemma CheckReports(s: State, id: Wid, w: Writer, t: State)
    requires CheckNext(s, id, w, t)
    ensures id in t.writers && ReportFits(t.writers[id])
  {
    if w.request.Chmod? {
      ModeMeans(w.request, s.inodes[w.ino].mode);
    }
  }

  lemma UnlinkReports(s: State, id: Wid, w: Writer, t: State)
    requires WriterOk(s, id, w) && UnlinkNext(s, id, w, t)
    ensures id in t.writers && ReportFits(t.writers[id])
  {
  }

  lemma ReleaseReports(s: State, id: Wid, w: Writer, t: State)
    requires WriterOk(s, id, w) && ReleaseNext(s, id, w, t)
    ensures id in t.writers && ReportFits(t.writers[id])
  {
  }

  lemma FailReports(s: State, id: Wid, w: Writer, t: State)
    requires WriterOk(s, id, w) && FailNext(s, id, w, t)
    ensures id in t.writers && ReportFits(t.writers[id])
  {
  }

  lemma StepReports(s: State, id: Wid, w: Writer, a: Action, t: State)
    requires !Outside(a) && WriterOk(s, id, w) && WriterNext(s, id, w, a, t) && id in s.writers && s.writers[id] == w
    ensures id in t.writers && ReportFits(t.writers[id])
  {
    if a.Check? {
      CheckReports(s, id, w, t);
    } else if a.Unlink? {
      UnlinkReports(s, id, w, t);
    } else if a.Release? {
      ReleaseReports(s, id, w, t);
    } else if a.Fail? {
      FailReports(s, id, w, t);
    } else {
      NotYetDone(s, id, w, a, t);
    }
  }

  lemma StepKeepsAccepted(s: State, id: Wid, w: Writer, a: Action, t: State)
    requires !Outside(a) && AcceptedFits(w) && WriterNext(s, id, w, a, t)
    requires id in s.writers && s.writers[id] == w
    ensures id in t.writers && AcceptedFits(t.writers[id])
  {
    if a.Check? && w.request.Chmod? {
      ModeMeans(w.request, s.inodes[w.ino].mode);
    }
  }

  /** A writer's step moves that writer only; an outside change moves none. */
  lemma OnlyOneMoves(s: State, id: Wid, a: Action, t: State)
    requires Next(s, id, a, t)
    ensures if Outside(a) then t.writers == s.writers
            else id in t.writers && t.writers == s.writers[id := t.writers[id]]
  {
  }

  lemma StepKeepsOwnReport(s: State, id: Wid, a: Action, t: State)
    requires Inv(s) && ReportsFit(s) && !Outside(a) && Next(s, id, a, t)
    ensures id in t.writers && ReportFits(t.writers[id]) && AcceptedFits(t.writers[id])
  {
    var w := s.writers[id];
    assert WriterOk(s, id, w) && ReportFits(w) && AcceptedFits(w);
    StepReports(s, id, w, a, t);
    StepKeepsAccepted(s, id, w, a, t);
  }

  lemma ReportReplaced(s: State, id: Wid, x: Writer, t: State)
    requires ReportsFit(s) && t.writers == s.writers[id := x] && ReportFits(x) && AcceptedFits(x)
    ensures ReportsFit(t)
  {
    forall v | v in t.writers ensures ReportFits(t.writers[v]) && AcceptedFits(t.writers[v]) {
      assert v == id || (v in s.writers && t.writers[v] == s.writers[v]);
    }
  }

  lemma StepKeepsReports(s: State, id: Wid, a: Action, t: State)
    requires Inv(s) && ReportsFit(s) && Next(s, id, a, t)
    ensures ReportsFit(t)
  {
    OnlyOneMoves(s, id, a, t);
    if !Outside(a) {
      StepKeepsOwnReport(s, id, a, t);
      ReportReplaced(s, id, t.writers[id], t);
    }
  }

  lemma InitIsInv(s: State)
    requires Init(s) && PlainTargets(s)
    ensures Inv(s)
  {
  }

  // ---------------------------------------------------------------- refinement of atomic edits

  /** What a reader sees: every ordinary name with the file it holds. */
  function View(s: State): map<Name, File> {
    map n | n in s.names && n.Plain? && s.names[n] in s.inodes :: s.inodes[s.names[n]]
  }

  /** The edit a request stands for, as one indivisible change of one name. */
  ghost predicate AtomicEdit(request: Request, before: map<Name, File>, after: map<Name, File>) {
    match request
    case Replace(n, plan) =>
      n in before && plan(before[n].bytes).Some?
        && after == before[n := File(plan(before[n].bytes).value, before[n].mode)]
    case Chmod(n, executable, accepts) =>
      && n in before && n in after && accepts(before[n]) && after == before[n := after[n]]
      && after[n].bytes == before[n].bytes && SameOtherBits(after[n].mode, before[n].mode)
      && !ExecutableAs(executable, before[n].mode) && ExecutableAs(executable, after[n].mode)
    case Create(n, text) =>
      n !in before && n in after && after[n].bytes == text && after == before[n := after[n]]
  }

  predicate TakesEffect(a: Action) {
    a.Rename? || a.SetMode? || a.Link?
  }

  /** No writer's step is seen by readers, except the one that is its whole edit. When it takes effect, the
      name still holds the inode the writer opened, with the bytes and mode it checked, and a temporary
      name is only ever removed by the writer whose file it names. */
  ghost predicate StepGood(s: State, id: Wid, a: Action, t: State) {
    !Outside(a) && id in s.writers ==>
      var w := s.writers[id];
      && (if TakesEffect(a) then AtomicEdit(w.request, View(s), View(t)) else View(t) == View(s))
      && (a.Rename? || a.SetMode? ==>
            w.request.target in s.names && s.names[w.request.target] == w.ino && w.ino in s.inodes
              && s.inodes[w.ino] == w.seen)
      && (w.request.Chmod? && (a.Check? || a.SetMode?) ==> OnlyName(s, w.request.target, w.ino))
      && (a.Open? ==> (w.request.target in s.names <==> !w.request.Create?))
      && UnlinksOwn(s, id, a)
  }

  /** Nothing else leads to this inode: the mode of a file with a second name is neither accepted nor changed. */
  ghost predicate OnlyName(s: State, name: Name, ino: Ino) {
    forall n :: n in s.names && n != name ==> s.names[n] != ino
  }

  lemma SecondNameIsRefused(s: State, id: Wid, w: Writer, a: Action, t: State)
    requires WriterOk(s, id, w) && !Outside(a) && WriterNext(s, id, w, a, t)
    requires w.request.Chmod? && (a.Check? || a.SetMode?)
    ensures OnlyName(s, w.request.target, w.ino)
  {
  }

  ghost predicate UnlinksOwn(s: State, id: Wid, a: Action) {
    a.Unlink? && id in s.writers ==>
      s.writers[id].temp in s.names && s.names[s.writers[id].temp] == s.writers[id].tempIno
  }

  lemma RenameIsEdit(s: State, id: Wid, t: State)
    requires Inv(s) && id in s.writers && RenameNext(s, id, s.writers[id], t)
    ensures AtomicEdit(s.writers[id].request, View(s), View(t))
  {
    var w := s.writers[id];
    assert WriterOk(s, id, w);
    assert View(t) == View(s)[w.request.target := File(w.contents, w.seen.mode)];
  }

  lemma SetModeIsEdit(s: State, id: Wid, t: State)
    requires Inv(s) && id in s.writers && SetModeNext(s, id, s.writers[id], t)
    requires AcceptedFits(s.writers[id])
    ensures AtomicEdit(s.writers[id].request, View(s), View(t))
  {
    var w := s.writers[id];
    assert WriterOk(s, id, w);
    ModeMeans(w.request, w.seen.mode);
    assert View(t) == View(s)[w.request.target := w.seen.(mode := WithMode(w.request, w.seen.mode))];
  }

  lemma LinkIsEdit(s: State, id: Wid, t: State)
    requires Inv(s) && id in s.writers && LinkNext(s, id, s.writers[id], t)
    ensures AtomicEdit(s.writers[id].request, View(s), View(t))
  {
    var w := s.writers[id];
    assert WriterOk(s, id, w);
    assert View(t) == View(s)[w.request.target := s.inodes[w.tempIno]];
  }

  lemma UnseenWrite(s: State, id: Wid, count: nat, t: State)
    requires Inv(s) && id in s.writers && WriteNext(s, id, s.writers[id], count, t)
    ensures View(t) == View(s)
  {
    assert WriterOk(s, id, s.writers[id]);
  }

  lemma UnseenSetBits(s: State, id: Wid, t: State)
    requires Inv(s) && id in s.writers && SetBitsNext(s, id, s.writers[id], t)
    ensures View(t) == View(s)
  {
    assert WriterOk(s, id, s.writers[id]);
  }

  lemma UnseenTemp(s: State, id: Wid, unused: Ino, mode: Mode, t: State)
    requires Inv(s) && id in s.writers && NewTempNext(s, id, s.writers[id], unused, mode, t)
    ensures View(t) == View(s)
  {
  }

  lemma UnseenUnlink(s: State, id: Wid, t: State)
    requires Inv(s) && id in s.writers && UnlinkNext(s, id, s.writers[id], t)
    ensures View(t) == View(s)
  {
    assert WriterOk(s, id, s.writers[id]);
  }

  lemma FilesStay(s: State, id: Wid, w: Writer, a: Action, t: State)
    requires !Outside(a) && WriterNext(s, id, w, a, t)
    requires !TakesEffect(a) && !a.Write? && !a.SetBits? && !a.Unlink?
    ensures (t.names == s.names && t.inodes == s.inodes) || (a.TryTemp? && NewTempNext(s, id, w, a.unused, a.mode, t))
  {
  }

  lemma UnseenStep(s: State, id: Wid, a: Action, t: State)
    requires Inv(s) && Next(s, id, a, t) && !Outside(a) && !TakesEffect(a)
    ensures View(t) == View(s)
  {
    if a.Write? {
      UnseenWrite(s, id, a.count, t);
    } else if a.SetBits? {
      UnseenSetBits(s, id, t);
    } else if a.Unlink? {
      UnseenUnlink(s, id, t);
    } else {
      FilesStay(s, id, s.writers[id], a, t);
      if a.TryTemp? && NewTempNext(s, id, s.writers[id], a.unused, a.mode, t) {
        UnseenTemp(s, id, a.unused, a.mode, t);
      }
    }
  }

  lemma EditIsOne(s: State, id: Wid, a: Action, t: State)
    requires Inv(s) && ReportsFit(s) && Next(s, id, a, t) && TakesEffect(a)
    ensures id in s.writers && AtomicEdit(s.writers[id].request, View(s), View(t))
  {
    assert AcceptedFits(s.writers[id]);
    if a.Rename? {
      RenameIsEdit(s, id, t);
    } else if a.SetMode? {
      SetModeIsEdit(s, id, t);
    } else {
      LinkIsEdit(s, id, t);
    }
  }

  lemma EditMeetsWhatWasChecked(s: State, id: Wid, w: Writer)
    requires WriterOk(s, id, w) && ((w.pc.Validated? && w.request.Replace?) || (w.pc.Counted? && w.request.Chmod?))
    ensures w.request.target in s.names && s.names[w.request.target] == w.ino && w.ino in s.inodes
            && s.inodes[w.ino] == w.seen
  {
  }

  lemma StepIsGood(s: State, id: Wid, a: Action, t: State)
    requires Inv(s) && ReportsFit(s) && Next(s, id, a, t)
    ensures StepGood(s, id, a, t)
  {
    if TakesEffect(a) {
      EditIsOne(s, id, a, t);
    } else if !Outside(a) {
      UnseenStep(s, id, a, t);
    }
    if a.Rename? || a.SetMode? {
      EditMeetsWhatWasChecked(s, id, s.writers[id]);
    }
    if a.Check? || a.SetMode? || a.Unlink? {
      assert WriterOk(s, id, s.writers[id]);
      if s.writers[id].request.Chmod? && !a.Unlink? {
        SecondNameIsRefused(s, id, s.writers[id], a, t);
      }
    }
  }
}
