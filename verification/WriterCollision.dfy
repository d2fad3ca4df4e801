/** Where the writer protocol fails: a caller's target shaped like a temporary name. */
module WriterCollision {
  import opened Options
  import opened WriterProtocol
  import opened WriterRefinement
  import opened WriterRuns

  ghost predicate TargetsIn(s: State, targets: set<Name>) {
    forall id :: id in s.writers ==> s.writers[id].request.target in targets
  }

  /** Whatever the callers name among these targets, writers only ever remove their own temporary files. */
  ghost predicate SafeFor(targets: set<Name>) {
    forall r: Run :: Valid(r) && TargetsIn(First(r), targets) ==> AllUnlinksOwn(r)
  }

  lemma {:induction false} GoodRunsUnlinkOwn(r: Run)
    requires AllGood(r)
    ensures AllUnlinksOwn(r)
  {
    if r.Then? {
      GoodRunsUnlinkOwn(r.run);
      assert StepGood(Last(r.run), r.id, r.action, r.state);
    }
  }

  /** Two callers that both name a temporary name: one creates it, the other replaces it. */
  function Creator(n: Name): Writer
    requires n.Temp?
  {
    Writer(n.pid, Create(n, []), Start, 0, File([], 0), [], 0, n, 0, 0, 0)
  }

  function Replacer(n: Name): Writer
    requires n.Temp?
  {
    Writer(n.pid + 1, Replace(n, (read: Bytes) => Some([7])), Start, 0, File([], 0), [], 0, n, 0, 0, 0)
  }

  /** Names left by earlier attempts of the same process, so that the creator arrives at exactly this one. */
  function Stale(n: Name): map<Name, Ino>
    requires n.Temp?
  {
    map j: Attempt | 0 <= j < n.attempt :: Temp(n.dir, n.pid, j) := 0
  }

  function Start0(n: Name): State
    requires n.Temp?
  {
    State(Stale(n), map[0 := File([], 0)], map[], map[0 := Creator(n), 1 := Replacer(n)])
  }

  lemma Extend(r: Run, id: Wid, a: Action, t: State) returns (longer: Run)
    requires Valid(r) && Next(Last(r), id, a, t)
    ensures Valid(longer) && First(longer) == First(r) && Last(longer) == t
    ensures AllUnlinksOwn(longer) ==> UnlinksOwn(Last(r), id, a)
  {
    longer := Then(r, id, a, t);
  }

  ghost predicate Writers(s: State, creator: Writer, replacer: Writer) {
    0 in s.writers && s.writers[0] == creator && 1 in s.writers && s.writers[1] == replacer
  }

  /** The creator has been refused `tries` stale names. */
  ghost predicate Trying(s: State, n: Name, tries: nat)
    requires n.Temp?
  {
    && Writers(s, Creator(n).(pc := Checked, tries := tries), Replacer(n))
    && s.names == Stale(n) && s.locks == map[] && 1 !in s.inodes && 2 !in s.inodes
  }

  lemma CreatorOpens(n: Name) returns (r: Run)
    requires n.Temp?
    ensures Valid(r) && First(r) == Start0(n) && Trying(Last(r), n, 0)
  {
    var s := Start0(n);
    var t := Put(s, 0, Creator(n).(pc := Checked));
    assert OpenNext(s, 0, Creator(n), t);
    r := Then(Begin(s), 0, Open, t);
  }

  lemma CreatorTriesOnce(s: State, n: Name, tries: nat) returns (t: State)
    requires n.Temp? && 0 < tries <= n.attempt && Trying(s, n, tries - 1)
    ensures Next(s, 0, TryTemp(1, 0), t) && Trying(t, n, tries)
  {
    var w := s.writers[0];
    t := Put(s, 0, w.(tries := tries));
    assert TempName(w) in s.names;
    assert NextTempNext(s, 0, w, t);
  }

  lemma {:induction false} CreatorTries(n: Name, tries: nat) returns (r: Run)
    requires n.Temp? && tries <= n.attempt
    ensures Valid(r) && First(r) == Start0(n) && Trying(Last(r), n, tries)
  {
    if tries == 0 {
      r := CreatorOpens(n);
    } else {
      r := CreatorTries(n, tries - 1);
      var t := CreatorTriesOnce(Last(r), n, tries);
      r := Extend(r, 0, TryTemp(1, 0), t);
    }
  }

  function CreatorReady(n: Name): Writer
    requires n.Temp?
  {
    Creator(n).(pc := TempMade, tries := n.attempt, tempIno := 1)
  }

  /** The name holds the creator's temporary file, which the replacer opens. */
  ghost predicate Colliding(s: State, n: Name, replacer: Writer)
    requires n.Temp?
  {
    && Writers(s, CreatorReady(n), replacer)
    && n in s.names && s.names[n] == 1 && 1 in s.inodes && s.inodes[1] == File([], 0) && 2 !in s.inodes
    && Temp(n.dir, n.pid + 1, 0) !in s.names
  }

  lemma CreatorMakesTemp(s: State, n: Name) returns (t: State)
    requires n.Temp? && Trying(s, n, n.attempt)
    ensures Next(s, 0, TryTemp(1, 0), t) && Colliding(t, n, Replacer(n)) && t.locks == map[]
  {
    var w := s.writers[0];
    assert TempName(w) == n && n !in s.names;
    t := Put(s.(names := s.names[n := 1], inodes := s.inodes[1 := File([], 0)]), 0,
             w.(pc := TempMade, temp := n, tempIno := 1));
    assert NewTempNext(s, 0, w, 1, 0, t);
  }

  function ReplacerAt(n: Name, pc: Pc): Writer
    requires n.Temp?
  {
    Replacer(n).(pc := pc, ino := 1, contents := [7], temp := Temp(n.dir, n.pid + 1, 0), tempIno := 2)
  }

  lemma ReplacerOpens(s: State, n: Name) returns (t: State)
    requires n.Temp? && Colliding(s, n, Replacer(n))
    ensures Next(s, 1, Open, t) && t.locks == s.locks && Colliding(t, n, Replacer(n).(pc := Opened, ino := 1))
  {
    t := Put(s, 1, Replacer(n).(pc := Opened, ino := 1));
    assert OpenNext(s, 1, s.writers[1], t);
  }

  lemma ReplacerLocks(s: State, n: Name) returns (t: State)
    requires n.Temp? && s.locks == map[] && Colliding(s, n, Replacer(n).(pc := Opened, ino := 1))
    ensures Next(s, 1, Lock, t) && Colliding(t, n, Replacer(n).(pc := Locked, ino := 1))
  {
    t := Put(s.(locks := s.locks[1 := 1]), 1, Replacer(n).(pc := Locked, ino := 1));
    assert LockNext(s, 1, s.writers[1], t);
  }

  lemma ReplacerChecks(s: State, n: Name) returns (t: State)
    requires n.Temp? && Colliding(s, n, Replacer(n).(pc := Locked, ino := 1))
    ensures Next(s, 1, Check, t) && Colliding(t, n, Replacer(n).(pc := Checked, ino := 1, contents := [7]))
  {
    t := Put(s, 1, Replacer(n).(pc := Checked, ino := 1, contents := [7]));
    assert CheckReplaceNext(s, 1, s.writers[1], t);
  }

  /** The replacer has a file of its own beside the creator's. */
  ghost predicate Staged(s: State, n: Name, pc: Pc, bytes: Bytes)
    requires n.Temp?
  {
    && Writers(s, CreatorReady(n), ReplacerAt(n, pc))
    && n in s.names && s.names[n] == 1 && 1 in s.inodes && s.inodes[1] == File([], 0)
    && Temp(n.dir, n.pid + 1, 0) in s.names && s.names[Temp(n.dir, n.pid + 1, 0)] == 2
    && 2 in s.inodes && s.inodes[2] == File(bytes, 0)
  }

  lemma ReplacerMakesTemp(s: State, n: Name) returns (t: State)
    requires n.Temp? && Colliding(s, n, Replacer(n).(pc := Checked, ino := 1, contents := [7]))
    ensures Next(s, 1, TryTemp(2, 0), t) && Staged(t, n, TempMade, [])
  {
    var w, temp := s.writers[1], Temp(n.dir, n.pid + 1, 0);
    assert TempName(w) == temp;
    t := Put(s.(names := s.names[temp := 2], inodes := s.inodes[2 := File([], 0)]), 1, ReplacerAt(n, TempMade));
    assert NewTempNext(s, 1, w, 2, 0, t);
  }

  lemma ReplacerWrites(s: State, n: Name) returns (t: State)
    requires n.Temp? && Staged(s, n, TempMade, [])
    ensures Next(s, 1, Write(1), t) && Staged(t, n, TempMade, [7])
  {
    assert [] + ReplacerAt(n, TempMade).contents[0..1] == [7];
    t := s.(inodes := s.inodes[2 := File([7], 0)]);
    assert WriteNext(s, 1, s.writers[1], 1, t);
  }

  lemma ReplacerSyncs(s: State, n: Name) returns (t: State)
    requires n.Temp? && Staged(s, n, TempMade, [7])
    ensures Next(s, 1, Sync, t) && Staged(t, n, Filled, [7])
  {
    t := Put(s, 1, ReplacerAt(n, Filled));
    assert SyncNext(s, 1, s.writers[1], t);
  }

  lemma ReplacerReadsBits(s: State, n: Name) returns (t: State)
    requires n.Temp? && Staged(s, n, Filled, [7])
    ensures Next(s, 1, ReadBits, t) && Staged(t, n, BitsRead, [7])
  {
    t := Put(s, 1, ReplacerAt(n, BitsRead));
    assert ReadBitsNext(s, 1, s.writers[1], t);
  }

  lemma ReplacerSetsBits(s: State, n: Name) returns (t: State)
    requires n.Temp? && Staged(s, n, BitsRead, [7])
    ensures Next(s, 1, SetBits, t) && Staged(t, n, BitsSet, [7])
  {
    t := Put(s.(inodes := s.inodes[2 := File([7], 0)]), 1, ReplacerAt(n, BitsSet));
    assert SetBitsNext(s, 1, s.writers[1], t);
  }

  lemma ReplacerRevalidates(s: State, n: Name) returns (t: State)
    requires n.Temp? && Staged(s, n, BitsSet, [7])
    ensures Next(s, 1, Revalidate, t) && Staged(t, n, Validated, [7])
  {
    t := Put(s, 1, ReplacerAt(n, Validated));
    assert RevalidateNext(s, 1, s.writers[1], t);
  }

  /** The replacer's file has taken the creator's name. */
  ghost predicate Replaced(s: State, n: Name, replacer: Writer)
    requires n.Temp?
  {
    Writers(s, CreatorReady(n), replacer) && n in s.names && s.names[n] == 2
  }

  lemma ReplacerRenames(s: State, n: Name) returns (t: State)
    requires n.Temp? && Staged(s, n, Validated, [7])
    ensures Next(s, 1, Rename, t) && Replaced(t, n, ReplacerAt(n, Published).(effects := 1))
  {
    var w := s.writers[1];
    t := Put(s.(names := (s.names - {w.temp})[n := 2]), 1, w.(pc := Published, effects := 1));
    assert RenameNext(s, 1, w, t);
  }

  lemma ReplacerSucceeds(s: State, n: Name) returns (t: State)
    requires n.Temp? && Replaced(s, n, ReplacerAt(n, Published).(effects := 1))
    ensures Next(s, 1, Release, t) && Replaced(t, n, ReplacerAt(n, Done(true)).(effects := 1))
  {
    var w := s.writers[1];
    t := Put(Unlock(s, w), 1, w.(pc := Done(true)));
    assert ReleaseNext(s, 1, w, t);
  }

  lemma CreatorFails(s: State, n: Name) returns (t: State)
    requires n.Temp? && Replaced(s, n, ReplacerAt(n, Done(true)).(effects := 1))
    ensures Next(s, 0, Fail, t) && Writers(t, CreatorReady(n).(pc := Cleaning), s.writers[1]) && t.names == s.names
  {
    var w := s.writers[0];
    t := Put(s, 0, w.(pc := Cleaning));
    assert FailNext(s, 0, w, t);
  }

  lemma CreatorCleansUp(s: State, n: Name) returns (t: State)
    requires n.Temp? && 1 in s.writers && Writers(s, CreatorReady(n).(pc := Cleaning), s.writers[1])
    requires n in s.names && s.names[n] == 2
    ensures Next(s, 0, Unlink, t) && !UnlinksOwn(s, 0, Unlink)
    ensures 1 in t.writers && t.writers[1] == s.writers[1] && n !in t.names
  {
    var w := s.writers[0];
    t := Put(Unlock(s, w).(names := s.names - {w.temp}), 0, w.(pc := Done(false)));
    assert UnlinkNext(s, 0, w, t);
  }

  lemma ReplacerChecked(n: Name) returns (r: Run)
    requires n.Temp?
    ensures Valid(r) && First(r) == Start0(n)
    ensures Colliding(Last(r), n, Replacer(n).(pc := Checked, ino := 1, contents := [7]))
  {
    r := CreatorTries(n, n.attempt);
    var s := CreatorMakesTemp(Last(r), n);
    r := Extend(r, 0, TryTemp(1, 0), s);
    s := ReplacerOpens(s, n);
    r := Extend(r, 1, Open, s);
    s := ReplacerLocks(s, n);
    r := Extend(r, 1, Lock, s);
    s := ReplacerChecks(s, n);
    r := Extend(r, 1, Check, s);
  }

  lemma ReplacerFilled(n: Name) returns (r: Run)
    requires n.Temp?
    ensures Valid(r) && First(r) == Start0(n) && Staged(Last(r), n, Filled, [7])
  {
    r := ReplacerChecked(n);
    var s := ReplacerMakesTemp(Last(r), n);
    r := Extend(r, 1, TryTemp(2, 0), s);
    s := ReplacerWrites(s, n);
    r := Extend(r, 1, Write(1), s);
    s := ReplacerSyncs(s, n);
    r := Extend(r, 1, Sync, s);
  }

  lemma ReplacerValidated(n: Name) returns (r: Run)
    requires n.Temp?
    ensures Valid(r) && First(r) == Start0(n) && Staged(Last(r), n, Validated, [7])
  {
    r := ReplacerFilled(n);
    var s := ReplacerReadsBits(Last(r), n);
    r := Extend(r, 1, ReadBits, s);
    s := ReplacerSetsBits(s, n);
    r := Extend(r, 1, SetBits, s);
    s := ReplacerRevalidates(s, n);
    r := Extend(r, 1, Revalidate, s);
  }

  lemma ReplacerDone(n: Name) returns (r: Run)
    requires n.Temp?
    ensures Valid(r) && First(r) == Start0(n) && Replaced(Last(r), n, ReplacerAt(n, Done(true)).(effects := 1))
  {
    r := ReplacerValidated(n);
    var s := ReplacerRenames(Last(r), n);
    r := Extend(r, 1, Rename, s);
    s := ReplacerSucceeds(s, n);
    r := Extend(r, 1, Release, s);
  }

  /** The failing family: for any name shaped like a temporary one, a creation and a replacement of that
      name can run so that the replacement reports success and its file is then removed. */
  lemma TempTargetLosesUpdate(n: Name) returns (r: Run)
    requires n.Temp?
    ensures Valid(r) && TargetsIn(First(r), {n}) && !AllUnlinksOwn(r)
    ensures 1 in Last(r).writers && Last(r).writers[1].pc == Done(true) && Last(r).writers[1].effects == 1
    ensures n !in Last(r).names
  {
    r := ReplacerDone(n);
    var s := CreatorFails(Last(r), n);
    r := Extend(r, 0, Fail, s);
    s := CreatorCleansUp(s, n);
    r := Extend(r, 0, Unlink, s);
  }

  /** Writers remove only their own temporary files, in every run, exactly when no caller's target is
      shaped like a temporary name. */
  lemma SafeExactlyForOrdinaryTargets(targets: set<Name>)
    ensures SafeFor(targets) <==> forall n :: n in targets ==> n.Plain?
  {
    if n :| n in targets && n.Temp? {
      var r := TempTargetLosesUpdate(n);
      assert TargetsIn(First(r), targets);
    } else {
      forall r: Run | Valid(r) && TargetsIn(First(r), targets) ensures AllUnlinksOwn(r) {
        RunsAreSafe(r);
        GoodRunsUnlinkOwn(r);
      }
    }
  }
}
