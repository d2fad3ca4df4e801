/** The guarded writers of `fs/guarded_file.rs`, `fs/executable.rs` and `fs/mutation_lock.rs` as a step
    protocol: any number of replacements, mode changes and creations over one set of names and inodes,
    interleaved system call by system call, each stopped or failing anywhere. */
module WriterProtocol {
  import opened Options

  type Bytes = seq<int>
  type Ino = nat
  type Wid = nat
  type Mode = bv12

  const TEMP_FILE_ATTEMPT_LIMIT: nat := 100

  type Attempt = n: nat | n < TEMP_FILE_ATTEMPT_LIMIT

  /** An entry of a directory. `Temp` names are the ones `create_temp_file_at` generates:
      `.contextpatch.PID.ATTEMPT.tmp`, with an attempt below the limit. */
  datatype Name = Plain(dir: nat, text: string) | Temp(dir: nat, pid: nat, attempt: Attempt)

  datatype File = File(bytes: Bytes, mode: Mode)

  /** What a caller asks for. `plan` is the check of the bytes read and the bytes to write instead;
      `accepts` is the comparison with the expected digest and mode. */
  datatype Request =
    | Replace(target: Name, plan: Bytes -> Option<Bytes>)
    | Chmod(target: Name, executable: bool, accepts: File -> bool)
    | Create(target: Name, text: Bytes)

  const EXECUTE_BITS: Mode := 0x49
  const OTHER_BITS: Mode := 0xFB6

  datatype Pc = Start | Opened | Locked | Checked | TempMade | Filled | BitsRead | BitsSet | Validated
              | Counted | Published | Linked | Cleaning | Done(ok: bool) | Dead

  /** One writer: `ino` is the inode it opened, `seen` the file it checked under the lock, `tempIno` its
      temporary file, and `effects` the number of times it changed what a name holds. */
  datatype Writer = Writer(pid: nat, request: Request, pc: Pc, ino: Ino, seen: File, contents: Bytes,
                           tries: nat, temp: Name, tempIno: Ino, bits: Mode, effects: nat)

  datatype State = State(names: map<Name, Ino>, inodes: map<Ino, File>, locks: map<Ino, Wid>, writers: map<Wid, Writer>)

  function WithMode(request: Request, before: Mode): Mode
    requires request.Chmod?
  {
    if request.executable then before | EXECUTE_BITS else before & OTHER_BITS
  }

  ghost predicate SoleLink(s: State, name: Name, ino: Ino) {
    forall n :: n in s.names && s.names[n] == ino ==> n == name
  }

  // ---------------------------------------------------------------- steps

  datatype Action =
    | Open | Lock | Check | TryTemp(unused: Ino, mode: Mode) | Write(count: nat) | Sync | ReadBits | SetBits
    | Revalidate | Rename | CountLinks | SetMode | Link | Unlink | Release | Fail | Die
    | OutsideBind(name: Name, ino: Ino) | OutsideRemove(name: Name) | OutsideWrite(at: Ino, file: File)

  predicate Outside(a: Action) {
    a.OutsideBind? || a.OutsideRemove? || a.OutsideWrite?
  }

  /** The advisory lock is held from `Locked` until the writer ends. */
  predicate HoldsLock(w: Writer) {
    && !w.request.Create?
    && (w.pc.Locked? || w.pc.Checked? || w.pc.TempMade? || w.pc.Filled? || w.pc.BitsRead? || w.pc.BitsSet?
        || w.pc.Validated? || w.pc.Counted? || w.pc.Published? || w.pc.Cleaning?)
  }

  /** The temporary name is this writer's, from its exclusive creation until it is renamed or unlinked. */
  predicate HasTemp(w: Writer) {
    w.pc.TempMade? || w.pc.Filled? || w.pc.BitsRead? || w.pc.BitsSet? || (w.pc.Validated? && w.request.Replace?)
    || w.pc.Linked? || w.pc.Cleaning?
  }

  predicate Unpublished(w: Writer) {
    HasTemp(w) && w.effects == 0
  }

  predicate HasOpened(w: Writer) {
    !w.request.Create? && !w.pc.Start? && !w.pc.Done? && !w.pc.Dead?
  }

  function Put(s: State, id: Wid, w: Writer): State {
    s.(writers := s.writers[id := w])
  }

  function Unlock(s: State, w: Writer): State {
    if HoldsLock(w) then s.(locks := s.locks - {w.ino}) else s
  }

  function TempName(w: Writer): Name
    requires w.tries < TEMP_FILE_ATTEMPT_LIMIT
  {
    Temp(w.request.target.dir, w.pid, w.tries)
  }

  // What each system call of a writer needs and does.

  ghost predicate OpenNext(s: State, id: Wid, w: Writer, t: State) {
    && w.pc.Start?
    && if w.request.Create? then
         w.request.target !in s.names && t == Put(s, id, w.(pc := Checked, contents := w.request.text))
       else
         w.request.target in s.names && t == Put(s, id, w.(pc := Opened, ino := s.names[w.request.target]))
  }

  ghost predicate LockNext(s: State, id: Wid, w: Writer, t: State) {
    && w.pc.Opened? && w.ino !in s.locks
    && t == Put(s.(locks := s.locks[w.ino := id]), id, w.(pc := Locked))
  }

  ghost predicate CheckNext(s: State, id: Wid, w: Writer, t: State) {
    && w.pc.Locked? && w.ino in s.inodes
    && if w.request.Replace? then CheckReplaceNext(s, id, w, t) else CheckChmodNext(s, id, w, t)
  }

  ghost predicate CheckReplaceNext(s: State, id: Wid, w: Writer, t: State)
    requires w.ino in s.inodes
  {
    && w.pc.Locked? && w.request.Replace?
    && var file := s.inodes[w.ino];
       && w.request.plan(file.bytes).Some?
       && t == Put(s, id, w.(pc := Checked, seen := file, contents := w.request.plan(file.bytes).value))
  }

  ghost predicate CheckChmodNext(s: State, id: Wid, w: Writer, t: State)
    requires w.ino in s.inodes
  {
    && w.pc.Locked? && w.request.Chmod?
    && var file := s.inodes[w.ino];
       && SoleLink(s, w.request.target, w.ino) && w.request.accepts(file)
       && t == if WithMode(w.request, file.mode) == file.mode
               then Put(Unlock(s, w), id, w.(pc := Done(true), seen := file))
               else Put(s, id, w.(pc := Checked, seen := file))
  }

  /** A name already taken: the next one is tried. */
  ghost predicate NextTempNext(s: State, id: Wid, w: Writer, t: State) {
    && w.pc.Checked? && !w.request.Chmod? && w.tries < TEMP_FILE_ATTEMPT_LIMIT
    && TempName(w) in s.names && t == Put(s, id, w.(tries := w.tries + 1))
  }

  ghost predicate NewTempNext(s: State, id: Wid, w: Writer, unused: Ino, mode: Mode, t: State) {
    && w.pc.Checked? && !w.request.Chmod? && w.tries < TEMP_FILE_ATTEMPT_LIMIT
    && TempName(w) !in s.names && unused !in s.inodes
    && t == Put(s.(names := s.names[TempName(w) := unused], inodes := s.inodes[unused := File([], mode)]),
                id, w.(pc := TempMade, temp := TempName(w), tempIno := unused))
  }

  /** A writer tries a hundred names for its temporary file, whatever takes them, and then gives up. */
  lemma TriesHundredNames(s: State, id: Wid, w: Writer, unused: Ino, mode: Mode)
    requires w.pc.Checked? && !w.request.Chmod? && unused !in s.inodes
    ensures (exists t :: NextTempNext(s, id, w, t) || NewTempNext(s, id, w, unused, mode, t)) <==> w.tries < 100
  {
    if w.tries < 100 {
      var name := TempName(w);
      if name in s.names {
        assert NextTempNext(s, id, w, Put(s, id, w.(tries := w.tries + 1)));
      } else {
        assert NewTempNext(s, id, w, unused, mode,
                           Put(s.(names := s.names[name := unused], inodes := s.inodes[unused := File([], mode)]),
                               id, w.(pc := TempMade, temp := name, tempIno := unused)));
      }
    }
  }

  ghost predicate WriteNext(s: State, id: Wid, w: Writer, count: nat, t: State) {
    && w.pc.TempMade? && w.tempIno in s.inodes
    && var file := s.inodes[w.tempIno];
       && 0 < count <= |w.contents| - |file.bytes|
       && t == s.(inodes := s.inodes[w.tempIno :=
                    file.(bytes := file.bytes + w.contents[|file.bytes|..|file.bytes| + count])])
  }

  ghost predicate SyncNext(s: State, id: Wid, w: Writer, t: State) {
    && w.pc.TempMade? && w.tempIno in s.inodes && |s.inodes[w.tempIno].bytes| == |w.contents|
    && t == Put(s, id, w.(pc := Filled))
  }

  ghost predicate ReadBitsNext(s: State, id: Wid, w: Writer, t: State) {
    && w.pc.Filled? && w.request.Replace? && w.ino in s.inodes
    && t == Put(s, id, w.(pc := BitsRead, bits := s.inodes[w.ino].mode))
  }

  ghost predicate SetBitsNext(s: State, id: Wid, w: Writer, t: State) {
    && w.pc.BitsRead? && w.tempIno in s.inodes
    && t == Put(s.(inodes := s.inodes[w.tempIno := s.inodes[w.tempIno].(mode := w.bits)]), id, w.(pc := BitsSet))
  }

  ghost predicate RevalidateNext(s: State, id: Wid, w: Writer, t: State) {
    && (if w.request.Chmod? then w.pc.Checked? else w.pc.BitsSet?)
    && w.request.target in s.names && s.names[w.request.target] == w.ino
    && t == Put(s, id, w.(pc := Validated))
  }

  ghost predicate RenameNext(s: State, id: Wid, w: Writer, t: State) {
    && w.pc.Validated? && w.request.Replace? && w.temp in s.names
    && t == Put(s.(names := (s.names - {w.temp})[w.request.target := s.names[w.temp]]),
                id, w.(pc := Published, effects := w.effects + 1))
  }

  ghost predicate CountLinksNext(s: State, id: Wid, w: Writer, t: State) {
    && w.pc.Validated? && w.request.Chmod? && SoleLink(s, w.request.target, w.ino)
    && t == Put(s, id, w.(pc := Counted))
  }

  ghost predicate SetModeNext(s: State, id: Wid, w: Writer, t: State) {
    && w.pc.Counted? && w.request.Chmod? && w.ino in s.inodes
    && t == Put(s.(inodes := s.inodes[w.ino := s.inodes[w.ino].(mode := WithMode(w.request, w.seen.mode))]),
                id, w.(pc := Published, effects := w.effects + 1))
  }

  ghost predicate LinkNext(s: State, id: Wid, w: Writer, t: State) {
    && w.pc.Filled? && w.request.Create? && w.temp in s.names && w.request.target !in s.names
    && t == Put(s.(names := s.names[w.request.target := s.names[w.temp]]),
                id, w.(pc := Linked, effects := w.effects + 1))
  }

  ghost predicate UnlinkNext(s: State, id: Wid, w: Writer, t: State) {
    && (w.pc.Linked? || w.pc.Cleaning?)
    && t == Put(Unlock(s, w).(names := s.names - {w.temp}), id, w.(pc := Done(w.pc.Linked?)))
  }

  ghost predicate ReleaseNext(s: State, id: Wid, w: Writer, t: State) {
    w.pc.Published? && t == Put(Unlock(s, w), id, w.(pc := Done(true)))
  }

  predicate CanFail(w: Writer) {
    !w.pc.Done? && !w.pc.Dead? && !(w.pc.Published? && w.request.Replace?)
  }

  ghost predicate FailNext(s: State, id: Wid, w: Writer, t: State) {
    && CanFail(w)
    && t == if HasTemp(w) && !w.pc.Cleaning? then Put(s, id, w.(pc := Cleaning))
            else Put(Unlock(s, w), id, w.(pc := Done(false)))
  }

  ghost predicate DieNext(s: State, id: Wid, w: Writer, t: State) {
    !w.pc.Done? && t == Put(Unlock(s, w), id, w.(pc := Dead))
  }

  /** One system call of writer `id`, or one change by a process that takes no locks. */
  ghost predicate Next(s: State, id: Wid, a: Action, t: State) {
    if Outside(a) then OutsideNext(s, a, t) else
    id in s.writers && WriterNext(s, id, s.writers[id], a, t)
  }

  ghost predicate WriterNext(s: State, id: Wid, w: Writer, a: Action, t: State)
    requires !Outside(a)
  {
    match a
    case Open => OpenNext(s, id, w, t)
    case Lock => LockNext(s, id, w, t)
    case Check => CheckNext(s, id, w, t)
    case TryTemp(unused, mode) => NextTempNext(s, id, w, t) || NewTempNext(s, id, w, unused, mode, t)
    case Write(count) => WriteNext(s, id, w, count, t)
    case Sync => SyncNext(s, id, w, t)
    case ReadBits => ReadBitsNext(s, id, w, t)
    case SetBits => SetBitsNext(s, id, w, t)
    case Revalidate => RevalidateNext(s, id, w, t)
    case Rename => RenameNext(s, id, w, t)
    case CountLinks => CountLinksNext(s, id, w, t)
    case SetMode => SetModeNext(s, id, w, t)
    case Link => LinkNext(s, id, w, t)
    case Unlink => UnlinkNext(s, id, w, t)
    case Release => ReleaseNext(s, id, w, t)
    case Fail => FailNext(s, id, w, t)
    case Die => DieNext(s, id, w, t)
  }

  /** What processes outside the protocol may do: rebind, add or remove ordinary names and write ordinary
      files, except a name some writer has revalidated and not yet released, an inode some writer has
      locked, and files that are still temporary. */
  ghost predicate OutsideNext(s: State, a: Action, t: State)
    requires Outside(a)
  {
    match a
    case OutsideBind(name, ino) =>
      && name.Plain? && ino in s.inodes && !InWindow(s, name) && !TemporaryInode(s, ino) && !Counting(s, ino)
      && t == s.(names := s.names[name := ino])
    case OutsideRemove(name) => name.Plain? && !InWindow(s, name) && t == s.(names := s.names - {name})
    case OutsideWrite(at, file) => at !in s.locks && !TemporaryInode(s, at) && t == s.(inodes := s.inodes[at := file])
    case _ => false
  }

  ghost predicate InWindow(s: State, name: Name) {
    exists id :: id in s.writers && s.writers[id].request.target == name
      && (s.writers[id].pc.Validated? || s.writers[id].pc.Counted?)
  }

  ghost predicate TemporaryInode(s: State, ino: Ino) {
    exists id :: id in s.writers && Unpublished(s.writers[id]) && s.writers[id].tempIno == ino
  }

  ghost predicate Counting(s: State, ino: Ino) {
    exists id :: id in s.writers && s.writers[id].pc.Counted? && s.writers[id].ino == ino
  }

  // ---------------------------------------------------------------- invariant

  /** What holds of one writer at rest between two steps. */
  ghost predicate WriterOk(s: State, id: Wid, w: Writer) {
    var target := w.request.target;
    && target.Plain?
    && w.effects <= 1
    && (w.effects == 1 ==> w.pc.Published? || w.pc.Linked? || w.pc.Cleaning? || w.pc.Done? || w.pc.Dead?)
    && (w.pc.Published? || w.pc.Linked? ==> w.effects == 1)
    && (w.pc.Cleaning? && !w.request.Create? ==> w.effects == 0)
    && PcFits(w)
    && (HasOpened(w) ==> w.ino in s.inodes)
    && (HoldsLock(w) ==> w.ino in s.locks && s.locks[w.ino] == id)
    && (HoldsLock(w) && !w.pc.Locked? && w.effects == 0 ==> s.inodes[w.ino] == w.seen)
    && (w.pc.Validated? || w.pc.Counted? ==> target in s.names && s.names[target] == w.ino)
    && (w.pc.Counted? ==> SoleLink(s, target, w.ino))
    && (HasTemp(w) ==> TempOk(s, w))
    && (Planned(w) ==> w.request.plan(w.seen.bytes) == Some(w.contents))
  }

  predicate PcFits(w: Writer) {
    match w.request
    case Replace(_, _) => !w.pc.Counted? && !w.pc.Linked?
    case Chmod(_, _, _) => !HasTemp(w)
    case Create(_, text) =>
      && !w.pc.Opened? && !w.pc.Locked? && !w.pc.BitsRead? && !w.pc.BitsSet? && !w.pc.Validated? && !w.pc.Counted?
         && !w.pc.Published?
      && (w.pc.Checked? || HasTemp(w) ==> w.contents == text)
  }

  predicate Planned(w: Writer) {
    w.request.Replace? && (w.pc.Checked? || HasTemp(w))
  }

  /** The temporary file: its name still names it, nothing else does before publication, and it holds a
      prefix of the contents, all of them once synced, with the target's mode once that is copied. */
  ghost predicate TempOk(s: State, w: Writer) {
    && w.temp.Temp?
    && w.temp in s.names && s.names[w.temp] == w.tempIno && w.tempIno in s.inodes
    && (w.effects == 0 ==> SoleLink(s, w.temp, w.tempIno) && w.tempIno !in s.locks)
    && (w.effects == 0 ==> s.inodes[w.tempIno].bytes <= w.contents)
    && ((w.pc.Filled? || w.pc.BitsRead? || w.pc.BitsSet? || w.pc.Validated?) ==>
        s.inodes[w.tempIno].bytes == w.contents)
    && (w.pc.BitsRead? ==> w.bits == w.seen.mode)
    && ((w.pc.BitsSet? || w.pc.Validated?) ==> s.inodes[w.tempIno].mode == w.seen.mode)
  }

  /** Two writers never share a temporary file, and nobody has opened one that is not published. */
  predicate Apart(v: Writer, w: Writer) {
    && (HasTemp(v) && HasTemp(w) ==> v.tempIno != w.tempIno)
    && (HasOpened(v) && Unpublished(w) ==> v.ino != w.tempIno)
    && (HasOpened(w) && Unpublished(v) ==> w.ino != v.tempIno)
  }

  ghost predicate LocksOk(s: State) {
    forall i :: i in s.locks ==>
      s.locks[i] in s.writers && HoldsLock(s.writers[s.locks[i]]) && s.writers[s.locks[i]].ino == i
  }

  ghost predicate NamesOk(s: State) {
    forall n :: n in s.names ==> s.names[n] in s.inodes
  }

  ghost predicate Inv(s: State) {
    && NamesOk(s) && LocksOk(s)
    && (forall id :: id in s.writers ==> WriterOk(s, id, s.writers[id]))
    && (forall v, w :: v in s.writers && w in s.writers && v != w ==> Apart(s.writers[v], s.writers[w]))
  }

  ghost predicate Init(s: State) {
    && NamesOk(s) && s.locks == map[]
    && (forall id :: id in s.writers ==>
        s.writers[id].pc.Start? && s.writers[id].tries == 0 && s.writers[id].effects == 0)
  }

  /** No caller names a file the way temporary files are named. */
  ghost predicate PlainTargets(s: State) {
    forall id :: id in s.writers ==> s.writers[id].request.target.Plain?
  }
}
