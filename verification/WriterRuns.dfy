/** Whole runs of the writer protocol: any interleaving, any length. */
module WriterRuns {
  import opened Options
  import opened WriterProtocol
  import opened WriterInvariant
  import opened WriterRefinement

  datatype Run = Begin(start: State) | Then(run: Run, id: Wid, action: Action, state: State)

  function Last(r: Run): State {
    if r.Begin? then r.start else r.state
  }

  function First(r: Run): State {
    if r.Begin? then r.start else First(r.run)
  }

  ghost predicate Valid(r: Run) {
    if r.Begin? then Init(r.start) else Valid(r.run) && Next(Last(r.run), r.id, r.action, r.state)
  }

  ghost predicate AllGood(r: Run) {
    r.Then? ==> AllGood(r.run) && StepGood(Last(r.run), r.id, r.action, r.state)
  }

  ghost predicate AllUnlinksOwn(r: Run) {
    r.Then? ==> AllUnlinksOwn(r.run) && UnlinksOwn(Last(r.run), r.id, r.action)
  }

  /** In every interleaving of writers whose targets are ordinary names, with writers failing and dying
      anywhere and outside processes interfering outside the windows, readers see nothing but whole edits,
      each applied to exactly the file its writer checked, and every report is true. */
  lemma {:induction false} RunsAreSafe(r: Run)
    requires Valid(r) && PlainTargets(First(r))
    ensures AllGood(r) && Inv(Last(r)) && ReportsFit(Last(r))
  {
    if r.Begin? {
      InitIsInv(r.start);
    } else {
      RunsAreSafe(r.run);
      StepIsGood(Last(r.run), r.id, r.action, r.state);
      StepKeepsInv(Last(r.run), r.id, r.action, r.state);
      StepKeepsReports(Last(r.run), r.id, r.action, r.state);
    }
  }

  // ---------------------------------------------------------------- racing creations

  /** No process outside the protocol takes this name away. */
  predicate NotTakenAway(r: Run, name: Name) {
    r.Then? ==> NotTakenAway(r.run, name) && r.action != OutsideRemove(name)
  }

  /** How many creations of one name have succeeded. */
  ghost function Creations(r: Run, name: Name): nat {
    if r.Begin? then 0
    else
      var before := Last(r.run);
      Creations(r.run, name) +
      if r.action.Link? && r.id in before.writers && before.writers[r.id].request.target == name then 1 else 0
  }

  /** No writer takes an ordinary name away, so of the creations racing for it at most one succeeds, and
      none does if the name was there from the start. */
  lemma {:induction false} AtMostOneCreation(r: Run, name: Name)
    requires Valid(r) && PlainTargets(First(r)) && NotTakenAway(r, name) && name.Plain?
    ensures Creations(r, name) <= 1
    ensures name in First(r).names ==> Creations(r, name) == 0
    ensures name in First(r).names || Creations(r, name) == 1 ==> name in Last(r).names
  {
    if r.Then? {
      AtMostOneCreation(r.run, name);
      RunsAreSafe(r.run);
      KeepsNames(Last(r.run), r.id, r.action, r.state, name);
    }
  }

  lemma OnlyTempsGo(s: State, id: Wid, w: Writer, a: Action, t: State, name: Name)
    requires !Outside(a) && WriterNext(s, id, w, a, t) && name.Plain? && (HasTemp(w) ==> w.temp.Temp?)
    ensures name in s.names ==> name in t.names
  {
  }

  lemma KeepsNames(s: State, id: Wid, a: Action, t: State, name: Name)
    requires Inv(s) && Next(s, id, a, t) && a != OutsideRemove(name) && name.Plain?
    ensures name in s.names ==> name in t.names
    ensures a.Link? ==> s.writers[id].request.target !in s.names && s.writers[id].request.target in t.names
  {
    if !Outside(a) {
      assert WriterOk(s, id, s.writers[id]);
      OnlyTempsGo(s, id, s.writers[id], a, t, name);
    }
  }

  // ---------------------------------------------------------------- no torn file

  /** Bytes some caller asked to have written as a whole. */
  ghost predicate Requested(request: Request, bytes: Bytes) {
    match request
    case Replace(_, plan) => exists read :: plan(read) == Some(bytes)
    case Chmod(_, _, _) => false
    case Create(_, text) => text == bytes
  }

  ghost predicate StartedWith(s: State, name: Name, bytes: Bytes) {
    name in View(s) && View(s)[name].bytes == bytes
  }

  ghost predicate SomeoneRequested(s: State, name: Name, bytes: Bytes) {
    exists id :: id in s.writers && s.writers[id].request.target == name && Requested(s.writers[id].request, bytes)
  }

  /** No process outside the protocol writes a file or binds this name. */
  predicate NotWrittenOutside(r: Run, name: Name) {
    r.Then? ==>
      NotWrittenOutside(r.run, name) && !r.action.OutsideWrite? && !(r.action.OutsideBind? && r.action.name == name)
  }

  lemma {:induction false} RequestsAreFixed(r: Run, name: Name, bytes: Bytes)
    requires Valid(r) && PlainTargets(First(r))
    ensures SomeoneRequested(Last(r), name, bytes) == SomeoneRequested(First(r), name, bytes)
  {
    if r.Then? {
      RequestsAreFixed(r.run, name, bytes);
      RunsAreSafe(r.run);
      StepKeepsRequests(Last(r.run), r.id, r.action, r.state);
      var s, t := Last(r.run), r.state;
      assert forall id :: id in s.writers <==> id in t.writers;
      assert forall id :: id in s.writers ==> s.writers[id].request == t.writers[id].request;
    }
  }

  lemma OwnRequestStays(s: State, id: Wid, a: Action, t: State)
    requires Next(s, id, a, t) && !Outside(a)
    ensures id in s.writers && id in t.writers && t.writers[id].request == s.writers[id].request
  {
  }

  lemma StepKeepsRequests(s: State, id: Wid, a: Action, t: State)
    requires Next(s, id, a, t)
    ensures t.writers.Keys == s.writers.Keys
    ensures forall v :: v in s.writers ==> t.writers[v].request == s.writers[v].request
  {
    OnlyOneMoves(s, id, a, t);
    if !Outside(a) {
      OwnRequestStays(s, id, a, t);
    }
  }

  lemma EditWasRequested(request: Request, before: map<Name, File>, after: map<Name, File>, name: Name)
    requires AtomicEdit(request, before, after) && name in after
    requires !(name in before && before[name].bytes == after[name].bytes)
    ensures request.target == name && Requested(request, after[name].bytes)
  {
  }

  lemma OutsideKeepsView(s: State, id: Wid, a: Action, t: State, name: Name)
    requires Next(s, id, a, t) && Outside(a) && !a.OutsideWrite? && !(a.OutsideBind? && a.name == name)
             && name in View(t)
    ensures name in View(s) && View(s)[name] == View(t)[name]
  {
  }

  /** At every moment of every run, an ordinary name that outside processes do not write holds what that name
      held at the start or the complete bytes of one request for it: never part of a file, never a mixture. */
  lemma {:induction false} NothingIsTorn(r: Run, name: Name)
    requires Valid(r) && PlainTargets(First(r)) && NotWrittenOutside(r, name) && name in View(Last(r))
    ensures var bytes := View(Last(r))[name].bytes;
            StartedWith(First(r), name, bytes) || SomeoneRequested(First(r), name, bytes)
  {
    if r.Then? {
      var s, t := Last(r.run), r.state;
      var bytes := View(t)[name].bytes;
      if Outside(r.action) {
        OutsideKeepsView(s, r.id, r.action, t, name);
      } else {
        RunsAreSafe(r);
        assert StepGood(s, r.id, r.action, t);
      }
      if name in View(s) && View(s)[name].bytes == bytes {
        NothingIsTorn(r.run, name);
      } else {
        EditWasRequested(s.writers[r.id].request, View(s), View(t), name);
        assert SomeoneRequested(s, name, bytes);
        RequestsAreFixed(r.run, name, bytes);
      }
    }
  }
}
