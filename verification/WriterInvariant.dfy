/** Every step of the writer protocol keeps its invariant. */
module WriterInvariant {
  import opened Options
  import opened WriterProtocol

  /** Everything one writer's facts depend on is the same in two states. */
  ghost predicate Keeps(s: State, t: State, w: Writer) {
    && (HasOpened(w) && w.ino in s.inodes ==> w.ino in t.inodes)
    && (HoldsLock(w) && w.ino in s.locks ==> w.ino in t.locks && t.locks[w.ino] == s.locks[w.ino])
    && (HoldsLock(w) && w.ino in s.inodes ==> w.ino in t.inodes && t.inodes[w.ino] == s.inodes[w.ino])
    && ((w.pc.Validated? || w.pc.Counted?) && w.request.target in s.names ==>
          w.request.target in t.names && t.names[w.request.target] == s.names[w.request.target])
    && (w.pc.Counted? ==> NoNewLinks(s, t, w.ino))
    && (HasTemp(w) && w.temp in s.names ==> w.temp in t.names && t.names[w.temp] == s.names[w.temp])
    && (HasTemp(w) && w.tempIno in s.inodes ==> w.tempIno in t.inodes)
    && (Unpublished(w) && w.tempIno in s.inodes ==> t.inodes[w.tempIno] == s.inodes[w.tempIno])
    && (Unpublished(w) ==> NoNewLinks(s, t, w.tempIno) && (w.tempIno in t.locks ==> w.tempIno in s.locks))
  }

  ghost predicate NoNewLinks(s: State, t: State, ino: Ino) {
    forall n :: n in t.names && t.names[n] == ino ==> n in s.names && s.names[n] == ino
  }

  lemma KeptWriterIsOk(s: State, t: State, id: Wid, w: Writer)
    requires WriterOk(s, id, w) && Keeps(s, t, w)
    ensures WriterOk(t, id, w)
  {
  }

  /** A step of one writer keeps the invariant if that writer is in order and the others are kept. */
  lemma Assemble(s: State, t: State, id: Wid, w: Writer)
    requires Inv(s) && t.writers == s.writers[id := w]
    requires NamesOk(t) && LocksOk(t)
    requires WriterOk(t, id, w)
    requires forall v :: v in s.writers && v != id ==> Keeps(s, t, s.writers[v]) && Apart(s.writers[v], w)
    ensures Inv(t)
  {
    forall v | v in t.writers ensures WriterOk(t, v, t.writers[v]) {
      if v != id {
        KeptWriterIsOk(s, t, v, s.writers[v]);
      }
    }
    forall v, u | v in t.writers && u in t.writers && v != u ensures Apart(t.writers[v], t.writers[u]) {
      if v != id && u != id {
        assert Apart(s.writers[v], s.writers[u]);
      } else if u == id {
        assert Apart(s.writers[v], w);
      } else {
        assert Apart(s.writers[u], w);
      }
    }
  }

  /** The writer holds no more than it did: same lock, same files. */
  predicate Calm(w: Writer, x: Writer) {
    && (HoldsLock(x) == HoldsLock(w) && (HoldsLock(w) ==> x.ino == w.ino))
    && (HasOpened(x) ==> HasOpened(w) && x.ino == w.ino)
    && (HasTemp(x) ==> HasTemp(w) && x.tempIno == w.tempIno)
    && (Unpublished(x) ==> Unpublished(w))
  }

  lemma SameFilesKeep(s: State, t: State, w: Writer)
    requires t.names == s.names && t.inodes == s.inodes && t.locks == s.locks
    ensures Keeps(s, t, w)
  {
  }

  lemma CalmStaysApart(v: Writer, w: Writer, x: Writer)
    requires Apart(v, w) && Calm(w, x)
    ensures Apart(v, x)
  {
  }

  /** A step that only changes what a writer remembers. */
  lemma Advance(s: State, t: State, id: Wid, x: Writer)
    requires Inv(s) && id in s.writers && t == Put(s, id, x)
    requires Calm(s.writers[id], x) && WriterOk(t, id, x)
    ensures Inv(t)
  {
    forall v | v in s.writers && v != id ensures Keeps(s, t, s.writers[v]) && Apart(s.writers[v], x) {
      SameFilesKeep(s, t, s.writers[v]);
      CalmStaysApart(s.writers[v], s.writers[id], x);
    }
    Assemble(s, t, id, x);
  }

  lemma UnlockKeeps(s: State, id: Wid, v: Wid)
    requires Inv(s) && id in s.writers && v in s.writers && v != id
    ensures Keeps(s, Unlock(s, s.writers[id]), s.writers[v])
  {
    assert WriterOk(s, id, s.writers[id]) && WriterOk(s, v, s.writers[v]);
  }

  lemma UnlockedLocksOk(s: State, id: Wid, x: Writer)
    requires Inv(s) && id in s.writers && !HoldsLock(x)
    ensures LocksOk(Put(Unlock(s, s.writers[id]), id, x))
  {
    assert WriterOk(s, id, s.writers[id]);
  }

  /** A writer ends: it gives up its lock and keeps nothing. */
  lemma Finish(s: State, t: State, id: Wid, x: Writer)
    requires Inv(s) && id in s.writers && t == Put(Unlock(s, s.writers[id]), id, x)
    requires !HoldsLock(x) && !HasTemp(x) && !HasOpened(x) && WriterOk(t, id, x)
    ensures Inv(t)
  {
    UnlockedLocksOk(s, id, x);
    var u := Unlock(s, s.writers[id]);
    assert t.names == u.names == s.names && t.inodes == u.inodes == s.inodes && t.locks == u.locks;
    forall v | v in s.writers && v != id ensures Keeps(s, t, s.writers[v]) && Apart(s.writers[v], x) {
      UnlockKeeps(s, id, v);
    }
    Assemble(s, t, id, x);
  }

  lemma OpenedIsNobodysTemp(s: State, name: Name, v: Wid)
    requires Inv(s) && name in s.names && name.Plain? && v in s.writers && Unpublished(s.writers[v])
    ensures s.names[name] != s.writers[v].tempIno
  {
    assert WriterOk(s, v, s.writers[v]);
  }

  lemma OpenKeeps(s: State, id: Wid, t: State, v: Wid)
    requires Inv(s) && id in s.writers && OpenNext(s, id, s.writers[id], t) && v in s.writers && v != id
    ensures Keeps(s, t, s.writers[v]) && Apart(s.writers[v], t.writers[id])
  {
    if Unpublished(s.writers[v]) && HasOpened(t.writers[id]) {
      OpenedIsNobodysTemp(s, s.writers[id].request.target, v);
    }
    SameFilesKeep(s, t, s.writers[v]);
  }

  lemma OpenedIsOk(s: State, id: Wid, t: State)
    requires Inv(s) && id in s.writers && OpenNext(s, id, s.writers[id], t)
    ensures WriterOk(t, id, t.writers[id]) && NamesOk(t) && LocksOk(t)
  {
    assert WriterOk(s, id, s.writers[id]);
  }

  lemma OpenStep(s: State, id: Wid, t: State)
    requires Inv(s) && id in s.writers && OpenNext(s, id, s.writers[id], t)
    ensures Inv(t)
  {
    OpenedIsOk(s, id, t);
    forall v | v in s.writers && v != id ensures Keeps(s, t, s.writers[v]) && Apart(s.writers[v], t.writers[id]) {
      OpenKeeps(s, id, t, v);
    }
    Assemble(s, t, id, t.writers[id]);
  }

  lemma LockKeeps(s: State, id: Wid, t: State, v: Wid)
    requires Inv(s) && id in s.writers && LockNext(s, id, s.writers[id], t) && v in s.writers && v != id
    ensures Keeps(s, t, s.writers[v]) && Apart(s.writers[v], t.writers[id])
  {
    assert Apart(s.writers[v], s.writers[id]) && WriterOk(s, id, s.writers[id]);
  }

  lemma LockStep(s: State, id: Wid, t: State)
    requires Inv(s) && id in s.writers && LockNext(s, id, s.writers[id], t)
    ensures Inv(t)
  {
    assert WriterOk(s, id, s.writers[id]);
    forall v | v in s.writers && v != id ensures Keeps(s, t, s.writers[v]) && Apart(s.writers[v], t.writers[id]) {
      LockKeeps(s, id, t, v);
    }
    Assemble(s, t, id, t.writers[id]);
  }

  lemma CheckReplaceStep(s: State, id: Wid, t: State)
    requires Inv(s) && id in s.writers && s.writers[id].ino in s.inodes && CheckReplaceNext(s, id, s.writers[id], t)
    ensures Inv(t)
  {
    assert WriterOk(s, id, s.writers[id]);
    Advance(s, t, id, t.writers[id]);
  }

  lemma ModeIsRight(s: State, id: Wid, t: State)
    requires Inv(s) && id in s.writers && s.writers[id].ino in s.inodes && CheckChmodNext(s, id, s.writers[id], t)
    requires id in t.writers && t.writers[id].pc.Done?
    ensures Inv(t)
  {
    assert WriterOk(s, id, s.writers[id]);
    Finish(s, t, id, t.writers[id]);
  }

  lemma ModeIsWrong(s: State, id: Wid, t: State)
    requires Inv(s) && id in s.writers && s.writers[id].ino in s.inodes && CheckChmodNext(s, id, s.writers[id], t)
    requires id in t.writers && !t.writers[id].pc.Done?
    ensures Inv(t)
  {
    assert WriterOk(s, id, s.writers[id]);
    Advance(s, t, id, t.writers[id]);
  }

  lemma CheckChmodStep(s: State, id: Wid, t: State)
    requires Inv(s) && id in s.writers && s.writers[id].ino in s.inodes && CheckChmodNext(s, id, s.writers[id], t)
    ensures Inv(t)
  {
    if t.writers[id].pc.Done? {
      ModeIsRight(s, id, t);
    } else {
      ModeIsWrong(s, id, t);
    }
  }

  lemma SyncStep(s: State, id: Wid, t: State)
    requires Inv(s) && id in s.writers && SyncNext(s, id, s.writers[id], t)
    ensures Inv(t)
  {
    assert WriterOk(s, id, s.writers[id]);
    Advance(s, t, id, t.writers[id]);
  }

  lemma ReadBitsStep(s: State, id: Wid, t: State)
    requires Inv(s) && id in s.writers && ReadBitsNext(s, id, s.writers[id], t)
    ensures Inv(t)
  {
    assert WriterOk(s, id, s.writers[id]);
    Advance(s, t, id, t.writers[id]);
  }

  lemma RevalidateStep(s: State, id: Wid, t: State)
    requires Inv(s) && id in s.writers && (RevalidateNext(s, id, s.writers[id], t)
                                           || CountLinksNext(s, id, s.writers[id], t))
    ensures Inv(t)
    ensures var w := t.writers[id];
            && w.request.target in t.names && t.names[w.request.target] == w.ino
            && w.ino in t.locks && t.locks[w.ino] == id && w.ino in t.inodes && t.inodes[w.ino] == w.seen
  {
    assert WriterOk(s, id, s.writers[id]);
    Advance(s, t, id, t.writers[id]);
  }

  lemma ReleaseStep(s: State, id: Wid, t: State)
    requires Inv(s) && id in s.writers && ReleaseNext(s, id, s.writers[id], t)
    ensures Inv(t)
  {
    assert WriterOk(s, id, s.writers[id]);
    Finish(s, t, id, t.writers[id]);
  }

  lemma DieStep(s: State, id: Wid, t: State)
    requires Inv(s) && id in s.writers && DieNext(s, id, s.writers[id], t)
    ensures Inv(t)
  {
    assert WriterOk(s, id, s.writers[id]);
    Finish(s, t, id, t.writers[id]);
  }

  lemma FailCleansUp(s: State, id: Wid, t: State)
    requires Inv(s) && id in s.writers && FailNext(s, id, s.writers[id], t) && HasTemp(s.writers[id])
             && !s.writers[id].pc.Cleaning?
    ensures Inv(t)
  {
    assert WriterOk(s, id, s.writers[id]);
    Advance(s, t, id, t.writers[id]);
  }

  lemma FailEnds(s: State, id: Wid, t: State)
    requires Inv(s) && id in s.writers && FailNext(s, id, s.writers[id], t)
             && (HasTemp(s.writers[id]) ==> s.writers[id].pc.Cleaning?)
    ensures Inv(t)
  {
    assert WriterOk(s, id, s.writers[id]);
    Finish(s, t, id, t.writers[id]);
  }

  lemma FailStep(s: State, id: Wid, t: State)
    requires Inv(s) && id in s.writers && FailNext(s, id, s.writers[id], t)
    ensures Inv(t)
  {
    if HasTemp(s.writers[id]) && !s.writers[id].pc.Cleaning? {
      FailCleansUp(s, id, t);
    } else {
      FailEnds(s, id, t);
    }
  }

  lemma NewTempKeeps(s: State, t: State, w: Writer, name: Name, ino: Ino, file: File)
    requires (HasTemp(w) ==> w.tempIno in s.inodes) && (HasOpened(w) ==> w.ino in s.inodes) && PcFits(w)
    requires name !in s.names && ino !in s.inodes
    requires t.names == s.names[name := ino] && t.inodes == s.inodes[ino := file] && t.locks == s.locks
    ensures Keeps(s, t, w)
  {
  }

  lemma LockedInodeExists(s: State, ino: Ino)
    requires Inv(s) && ino in s.locks
    ensures ino in s.inodes
  {
    assert WriterOk(s, s.locks[ino], s.writers[s.locks[ino]]);
  }

  lemma NewTempApart(s: State, id: Wid, unused: Ino, mode: Mode, t: State, v: Wid)
    requires Inv(s) && id in s.writers && NewTempNext(s, id, s.writers[id], unused, mode, t) && v in s.writers
             && v != id
    ensures Keeps(s, t, s.writers[v]) && Apart(s.writers[v], t.writers[id])
  {
    assert WriterOk(s, v, s.writers[v]) && Apart(s.writers[v], s.writers[id]);
    NewTempKeeps(s, t, s.writers[v], TempName(s.writers[id]), unused, File([], mode));
  }

  lemma NewTempIsOk(s: State, id: Wid, unused: Ino, mode: Mode, t: State)
    requires Inv(s) && id in s.writers && NewTempNext(s, id, s.writers[id], unused, mode, t)
    ensures WriterOk(t, id, t.writers[id]) && NamesOk(t) && LocksOk(t)
  {
    assert WriterOk(s, id, s.writers[id]);
    if unused in s.locks {
      LockedInodeExists(s, unused);
    }
  }

  lemma NewTempStep(s: State, id: Wid, unused: Ino, mode: Mode, t: State)
    requires Inv(s) && id in s.writers && NewTempNext(s, id, s.writers[id], unused, mode, t)
    ensures Inv(t)
  {
    NewTempIsOk(s, id, unused, mode, t);
    forall v | v in s.writers && v != id ensures Keeps(s, t, s.writers[v]) && Apart(s.writers[v], t.writers[id]) {
      NewTempApart(s, id, unused, mode, t, v);
    }
    Assemble(s, t, id, t.writers[id]);
  }

  lemma NextTempStep(s: State, id: Wid, t: State)
    requires Inv(s) && id in s.writers && NextTempNext(s, id, s.writers[id], t)
    ensures Inv(t)
  {
    assert WriterOk(s, id, s.writers[id]);
    Advance(s, t, id, t.writers[id]);
  }

  lemma TempWriteKeeps(s: State, t: State, w: Writer, v: Writer, file: File)
    requires Unpublished(w) && Apart(v, w) && w.tempIno in s.inodes
    requires t.names == s.names && t.inodes == s.inodes[w.tempIno := file] && t.locks == s.locks
    requires HoldsLock(v) ==> HasOpened(v)
    ensures Keeps(s, t, v)
  {
  }

  lemma FillKeeps(s: State, t: State, id: Wid, x: Writer, file: File)
    requires Inv(s) && id in s.writers && Unpublished(s.writers[id]) && Calm(s.writers[id], x)
    requires t.names == s.names && t.locks == s.locks
    requires var w := s.writers[id]; w.tempIno in s.inodes && t.inodes == s.inodes[w.tempIno := file]
    ensures forall v :: v in s.writers && v != id ==> Keeps(s, t, s.writers[v]) && Apart(s.writers[v], x)
  {
    var w := s.writers[id];
    forall v | v in s.writers && v != id ensures Keeps(s, t, s.writers[v]) && Apart(s.writers[v], x) {
      assert Apart(s.writers[v], w);
      TempWriteKeeps(s, t, w, s.writers[v], file);
      CalmStaysApart(s.writers[v], w, x);
    }
  }

  lemma WriteStep(s: State, id: Wid, count: nat, t: State)
    requires Inv(s) && id in s.writers && WriteNext(s, id, s.writers[id], count, t)
    ensures Inv(t)
  {
    var w := s.writers[id];
    assert WriterOk(s, id, w) && t.writers == s.writers[id := w];
    FillKeeps(s, t, id, w, t.inodes[w.tempIno]);
    Assemble(s, t, id, w);
  }

  lemma SetBitsStep(s: State, id: Wid, t: State)
    requires Inv(s) && id in s.writers && SetBitsNext(s, id, s.writers[id], t)
    ensures Inv(t)
  {
    var x := t.writers[id];
    assert WriterOk(s, id, s.writers[id]);
    FillKeeps(s, t, id, x, t.inodes[x.tempIno]);
    Assemble(s, t, id, x);
  }

  lemma TempNamesDiffer(s: State, id: Wid, v: Wid)
    requires Inv(s) && id in s.writers && v in s.writers && v != id && HasTemp(s.writers[id])
    ensures s.writers[id].temp.Temp? && s.writers[v].request.target.Plain?
    ensures HasTemp(s.writers[v]) ==> s.writers[v].temp != s.writers[id].temp
  {
    assert WriterOk(s, id, s.writers[id]) && WriterOk(s, v, s.writers[v]) && Apart(s.writers[v], s.writers[id]);
  }

  lemma NameGoneKeeps(s: State, u: State, t: State, v: Writer, temp: Name)
    requires Keeps(s, u, v) && u.names == s.names && u.inodes == s.inodes
    requires t.names == s.names - {temp} && t.inodes == u.inodes && t.locks == u.locks
    requires temp != v.request.target && (HasTemp(v) ==> v.temp != temp)
    ensures Keeps(s, t, v)
  {
  }

  /** Giving up a temporary name disturbs nobody else. */
  lemma UnlinkKeeps(s: State, t: State, id: Wid, v: Wid)
    requires Inv(s) && id in s.writers && v in s.writers && v != id && HasTemp(s.writers[id])
    requires t.names == s.names - {s.writers[id].temp} && t.inodes == s.inodes
             && t.locks == Unlock(s, s.writers[id]).locks
    ensures Keeps(s, t, s.writers[v])
  {
    UnlockKeeps(s, id, v);
    TempNamesDiffer(s, id, v);
    NameGoneKeeps(s, Unlock(s, s.writers[id]), t, s.writers[v], s.writers[id].temp);
  }

  /** Binding a target to a file of one's own disturbs nobody who has not revalidated that target. */
  lemma RenameKeeps(s: State, t: State, id: Wid, v: Wid)
    requires Inv(s) && id in s.writers && v in s.writers && v != id
    requires Unpublished(s.writers[id]) && s.writers[id].pc.Validated?
    requires var w := s.writers[id]; t.names == (s.names - {w.temp})[w.request.target := w.tempIno]
    requires t.inodes == s.inodes && t.locks == s.locks
    ensures Keeps(s, t, s.writers[v])
  {
    assert WriterOk(s, id, s.writers[id]) && WriterOk(s, v, s.writers[v]) && Apart(s.writers[v], s.writers[id]);
  }

  lemma RenameStep(s: State, id: Wid, t: State)
    requires Inv(s) && id in s.writers && RenameNext(s, id, s.writers[id], t)
    ensures Inv(t)
  {
    var w, x := s.writers[id], t.writers[id];
    assert WriterOk(s, id, w);
    forall v | v in s.writers && v != id ensures Keeps(s, t, s.writers[v]) && Apart(s.writers[v], x) {
      RenameKeeps(s, t, id, v);
      CalmStaysApart(s.writers[v], w, x);
    }
    Assemble(s, t, id, x);
  }

  lemma SetModeKeeps(s: State, id: Wid, t: State, v: Wid)
    requires Inv(s) && id in s.writers && SetModeNext(s, id, s.writers[id], t) && v in s.writers && v != id
    ensures Keeps(s, t, s.writers[v]) && Apart(s.writers[v], t.writers[id])
  {
    assert WriterOk(s, id, s.writers[id]) && WriterOk(s, v, s.writers[v]) && Apart(s.writers[v], s.writers[id]);
  }

  lemma SetModeStep(s: State, id: Wid, t: State)
    requires Inv(s) && id in s.writers && SetModeNext(s, id, s.writers[id], t)
    ensures Inv(t)
  {
    assert WriterOk(s, id, s.writers[id]);
    forall v | v in s.writers && v != id ensures Keeps(s, t, s.writers[v]) && Apart(s.writers[v], t.writers[id]) {
      SetModeKeeps(s, id, t, v);
    }
    Assemble(s, t, id, t.writers[id]);
  }

  lemma LinkKeeps(s: State, id: Wid, t: State, v: Wid)
    requires Inv(s) && id in s.writers && LinkNext(s, id, s.writers[id], t) && v in s.writers && v != id
    ensures Keeps(s, t, s.writers[v]) && Apart(s.writers[v], t.writers[id])
  {
    assert WriterOk(s, id, s.writers[id]) && WriterOk(s, v, s.writers[v]) && Apart(s.writers[v], s.writers[id]);
  }

  lemma LinkStep(s: State, id: Wid, t: State)
    requires Inv(s) && id in s.writers && LinkNext(s, id, s.writers[id], t)
    ensures Inv(t)
  {
    assert WriterOk(s, id, s.writers[id]);
    forall v | v in s.writers && v != id ensures Keeps(s, t, s.writers[v]) && Apart(s.writers[v], t.writers[id]) {
      LinkKeeps(s, id, t, v);
    }
    Assemble(s, t, id, t.writers[id]);
  }

  lemma UnlinkedIsOk(s: State, id: Wid, t: State)
    requires Inv(s) && id in s.writers && UnlinkNext(s, id, s.writers[id], t)
    ensures WriterOk(t, id, t.writers[id]) && NamesOk(t) && LocksOk(t)
  {
    UnlockedLocksOk(s, id, t.writers[id]);
    assert WriterOk(s, id, s.writers[id]);
  }

  lemma UnlinkStep(s: State, id: Wid, t: State)
    requires Inv(s) && id in s.writers && UnlinkNext(s, id, s.writers[id], t)
    ensures Inv(t)
  {
    UnlinkedIsOk(s, id, t);
    forall v | v in s.writers && v != id ensures Keeps(s, t, s.writers[v]) && Apart(s.writers[v], t.writers[id]) {
      UnlinkKeeps(s, t, id, v);
    }
    Assemble(s, t, id, t.writers[id]);
  }

  lemma OutsideKeeps(s: State, a: Action, t: State, v: Wid)
    requires Inv(s) && Outside(a) && OutsideNext(s, a, t) && v in s.writers
    ensures Keeps(s, t, s.writers[v])
  {
    assert WriterOk(s, v, s.writers[v]);
  }

  lemma OutsideStep(s: State, a: Action, t: State)
    requires Inv(s) && Outside(a) && OutsideNext(s, a, t)
    ensures Inv(t)
  {
    forall v | v in s.writers ensures WriterOk(t, v, s.writers[v]) {
      assert WriterOk(s, v, s.writers[v]);
      OutsideKeeps(s, a, t, v);
      KeptWriterIsOk(s, t, v, s.writers[v]);
    }
  }

  lemma CheckStep(s: State, id: Wid, t: State)
    requires Inv(s) && id in s.writers && CheckNext(s, id, s.writers[id], t)
    ensures Inv(t)
  {
    if s.writers[id].request.Replace? {
      CheckReplaceStep(s, id, t);
    } else {
      CheckChmodStep(s, id, t);
    }
  }

  lemma TryTempStep(s: State, id: Wid, unused: Ino, mode: Mode, t: State)
    requires Inv(s) && id in s.writers
    requires NextTempNext(s, id, s.writers[id], t) || NewTempNext(s, id, s.writers[id], unused, mode, t)
    ensures Inv(t)
  {
    if NextTempNext(s, id, s.writers[id], t) {
      NextTempStep(s, id, t);
    } else {
      NewTempStep(s, id, unused, mode, t);
    }
  }

  predicate Ends(a: Action) {
    a.Unlink? || a.Release? || a.Fail? || a.Die?
  }

  predicate Stages(a: Action) {
    a.TryTemp? || a.Write? || a.Sync? || a.ReadBits? || a.SetBits?
  }

  predicate Publishes(a: Action) {
    a.Revalidate? || a.Rename? || a.CountLinks? || a.SetMode? || a.Link?
  }

  lemma EndKeepsInv(s: State, id: Wid, a: Action, t: State)
    requires Inv(s) && id in s.writers && Ends(a) && WriterNext(s, id, s.writers[id], a, t)
    ensures Inv(t)
  {
    match a
    case Unlink => UnlinkStep(s, id, t);
    case Release => ReleaseStep(s, id, t);
    case Fail => FailStep(s, id, t);
    case Die => DieStep(s, id, t);
  }

  lemma StageKeepsInv(s: State, id: Wid, a: Action, t: State)
    requires Inv(s) && id in s.writers && Stages(a) && WriterNext(s, id, s.writers[id], a, t)
    ensures Inv(t)
  {
    match a
    case TryTemp(unused, mode) => TryTempStep(s, id, unused, mode, t);
    case Write(count) => WriteStep(s, id, count, t);
    case Sync => SyncStep(s, id, t);
    case ReadBits => ReadBitsStep(s, id, t);
    case SetBits => SetBitsStep(s, id, t);
  }

  lemma PublishKeepsInv(s: State, id: Wid, a: Action, t: State)
    requires Inv(s) && id in s.writers && Publishes(a) && WriterNext(s, id, s.writers[id], a, t)
    ensures Inv(t)
  {
    match a
    case Revalidate => RevalidateStep(s, id, t);
    case Rename => RenameStep(s, id, t);
    case CountLinks => RevalidateStep(s, id, t);
    case SetMode => SetModeStep(s, id, t);
    case Link => LinkStep(s, id, t);
  }

  lemma BeginKeepsInv(s: State, id: Wid, a: Action, t: State)
    requires Inv(s) && id in s.writers && (a.Open? || a.Lock? || a.Check?) && WriterNext(s, id, s.writers[id], a, t)
    ensures Inv(t)
  {
    match a
    case Open => OpenStep(s, id, t);
    case Lock => LockStep(s, id, t);
    case Check => CheckStep(s, id, t);
  }

  /** Every system call of every writer, and every permitted outside change, keeps the invariant. */
  lemma StepKeepsInv(s: State, id: Wid, a: Action, t: State)
    requires Inv(s) && Next(s, id, a, t)
    ensures Inv(t)
  {
    if Outside(a) {
      OutsideStep(s, a, t);
    } else if Ends(a) {
      EndKeepsInv(s, id, a, t);
    } else if Stages(a) {
      StageKeepsInv(s, id, a, t);
    } else if Publishes(a) {
      PublishKeepsInv(s, id, a, t);
    } else {
      BeginKeepsInv(s, id, a, t);
    }
  }
}
