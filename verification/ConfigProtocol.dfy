/**
Any number of processes writing keys into one level's file at the same time: two
reads, a temporary file written piece by piece, a rename, and failures or crashes in
between (cli/config-adapters/src/store.rs, cli/config/src/service.rs).
*/
module ConfigProtocol {
  import opened Wrappers
  import opened ConfigTree
  import opened ConfigWrites
  import opened ConfigKey
  import opened ConfigService
  import opened Document
  import opened ConfigFile
  import opened Decimals
  import ConfigRuns

  datatype Request = Request(key: Key, value: string)

  datatype Proc =
    | Idle
    | Started(request: Request)
    | Prepared(document: Node)                          // the document has been read and the key inserted
    | Rendered(document: Node, contents: string)        // the file has been read again, for its body
    | Writing(document: Node, contents: string, written: nat)
    | Written(document: Node, contents: string)
    | Done
    | Failed

  /**
  The level's file, the temporary files left or in use, the processes, and every request made
  so far. A temporary file is named by the number of its process, so no two live processes
  share one.
  */
  datatype State = State(target: File, temps: map<Pid, string>, procs: map<Pid, Proc>, requests: set<Request>) {
    function Proc(pid: Pid): Proc {
      if pid in procs then procs[pid] else Idle
    }

    function Become(pid: Pid, proc: Proc): State {
      this.(procs := procs[pid := proc])
    }
  }

  ghost predicate IsInitial(file: File, s: State) {
    s.target == file && s.procs == map[] && s.requests == {}
  }

  /** One step of one process. */
  ghost predicate Step(yaml: Yaml, s: State, s': State, pid: Pid) {
    || Crash(s, s', pid)
    || match s.Proc(pid)
       case Idle => Begin(s, s', pid)
       case Done => Begin(s, s', pid)
       case Failed => Begin(s, s', pid)
       case Started(request) => s' == s.Become(pid, AfterRead(yaml, s.target, request)) || s' == s.Become(pid, Failed)
       case Prepared(document) =>
         s' == s.Become(pid, AfterRender(yaml, s.target, document)) || s' == s.Become(pid, Failed)
       case Rendered(document, contents) =>
         || s' == s.(temps := s.temps[pid := ""]).Become(pid, Writing(document, contents, 0))
         || GiveUp(s, s', pid)
       case Writing(document, contents, written) =>
         || (exists more :: Advance(s, s', pid, more))
         || (written == |contents| && s' == s.Become(pid, Written(document, contents)))
         || GiveUp(s, s', pid)
       case Written(_, _) =>
         || (pid in s.temps && s' == s.(target := Some(s.temps[pid]), temps := s.temps - {pid}).Become(pid, Done))
         || GiveUp(s, s', pid)
  }

  /** A new request taken up by a free process. */
  ghost predicate Begin(s: State, s': State, pid: Pid) {
    s'.Proc(pid).Started? && s' == s.(requests := s.requests + {s'.Proc(pid).request}).Become(pid, s'.Proc(pid))
  }

  function AfterRead(yaml: Yaml, target: File, request: Request): Proc {
    match Prepare(yaml, target, request.key, request.value)
    case Success(document) => Prepared(document)
    case Failure(_) => Failed
  }

  function AfterRender(yaml: Yaml, target: File, document: Node): Proc {
    match Render(yaml, target, document)
    case Success(contents) => Rendered(document, contents)
    case Failure(_) => Failed
  }

  /** Some more of the contents reaches the temporary file. */
  ghost predicate Advance(s: State, s': State, pid: Pid, more: nat) {
    var proc := s.Proc(pid);
    && proc.Writing? && proc.written <= more <= |proc.contents|
    && s' == s.(temps := s.temps[pid := proc.contents[..more]]).Become(pid, proc.(written := more))
  }

  /** A failed call: the temporary file is removed, or its removal fails too. */
  ghost predicate GiveUp(s: State, s': State, pid: Pid) {
    s' == s.(temps := s.temps - {pid}).Become(pid, Failed) || s' == s.Become(pid, Failed)
  }

  /** The process dies; whatever it had written stays. */
  ghost predicate Crash(s: State, s': State, pid: Pid) {
    s' == s.Become(pid, Idle)
  }

  /** One step of some process. */
  ghost predicate Next(yaml: Yaml, s: State, s': State) {
    exists pid :: Step(yaml, s, s', pid)
  }

  ghost predicate IsRun(yaml: Yaml, file: File, states: seq<State>) {
    && states != [] && IsInitial(file, states[0])
    && forall i | 0 <= i < |states| - 1 :: Next(yaml, states[i], states[i + 1])
  }

  // ---- What every step keeps ----

  /** Every scalar in the document stood at its path in the initial file or was requested there. */
  ghost predicate IsSourced(yaml: Yaml, file: File, requests: set<Request>, document: Node) {
    && document.Section?
    && forall path: Path | path != [] && Resolve(Some(document), path).Some? ::
         IsSourcedAt(yaml, file, requests, path, Resolve(Some(document), path).value)
  }

  ghost predicate IsSourcedAt(yaml: Yaml, file: File, requests: set<Request>, path: Path, scalar: Scalar) {
    || (ReadFile(yaml, file).Success? && Resolve(ReadFile(yaml, file).value, path) == Some(scalar))
    || (exists request :: request in requests && request.key == path && String(request.value) == scalar)
  }

  /** A complete rendering, over the initial body, of a document all of whose scalars are accounted for. */
  ghost predicate IsRendering(yaml: Yaml, file: File, requests: set<Request>, document: Node, contents: string) {
    IsSourced(yaml, file, requests, document) && Render(yaml, file, document) == Success(contents)
  }

  ghost predicate TargetOk(yaml: Yaml, file: File, s: State) {
    || s.target == file
    || (s.target.Some? && exists document :: IsRendering(yaml, file, s.requests, document, s.target.value))
  }

  ghost predicate ProcOk(yaml: Yaml, file: File, s: State, pid: Pid) {
    match s.Proc(pid)
    case Started(request) => request in s.requests
    case Prepared(document) => IsSourced(yaml, file, s.requests, document) && ReadFile(yaml, file).Success?
    case Rendered(document, contents) => IsRendering(yaml, file, s.requests, document, contents)
    case Writing(document, contents, written) =>
      && IsRendering(yaml, file, s.requests, document, contents)
      && written <= |contents| && pid in s.temps && s.temps[pid] == contents[..written]
    case Written(document, contents) =>
      && IsRendering(yaml, file, s.requests, document, contents)
      && pid in s.temps && s.temps[pid] == contents
    case _ => true
  }

  ghost predicate Inv(yaml: Yaml, file: File, s: State) {
    TargetOk(yaml, file, s) && forall pid :: ProcOk(yaml, file, s, pid)
  }

  lemma SourcedGrows(yaml: Yaml, file: File, requests: set<Request>, more: set<Request>, document: Node)
    requires requests <= more && IsSourced(yaml, file, requests, document)
    ensures IsSourced(yaml, file, more, document)
  {
    forall path: Path | path != [] && Resolve(Some(document), path).Some?
      ensures IsSourcedAt(yaml, file, more, path, Resolve(Some(document), path).value)
    {
      assert IsSourcedAt(yaml, file, requests, path, Resolve(Some(document), path).value);
    }
  }

  /** Whatever the file is in the run, it reads as a sourced document and has the initial body. */
  lemma TargetReads(yaml: Yaml, file: File, s: State)
    requires IsFaithful(yaml) && TargetOk(yaml, file, s)
    ensures ReadFile(yaml, s.target).Success? <==> ReadFile(yaml, file).Success?
    ensures ExistingBody(yaml, s.target) == ExistingBody(yaml, file)
    ensures ReadFile(yaml, s.target).Success? ==>
              forall path: Path | path != [] && Resolve(ReadFile(yaml, s.target).value, path).Some? ::
                IsSourcedAt(yaml, file, s.requests, path, Resolve(ReadFile(yaml, s.target).value, path).value)
  {
    if s.target != file {
      var document :| IsRendering(yaml, file, s.requests, document, s.target.value);
      RenderRoundTrips(yaml, file, document);
    }
  }

  lemma PreparedIsSourced(yaml: Yaml, file: File, s: State, request: Request)
    requires IsFaithful(yaml) && TargetOk(yaml, file, s) && request in s.requests
    requires Prepare(yaml, s.target, request.key, request.value).Success?
    ensures IsSourced(yaml, file, s.requests, Prepare(yaml, s.target, request.key, request.value).value)
    ensures ReadFile(yaml, file).Success?
  {
    TargetReads(yaml, file, s);
    var read := ReadFile(yaml, s.target).value;
    var root := WriteRoot(read);
    var document := Prepare(yaml, s.target, request.key, request.value).value;
    forall path: Path | path != [] && Resolve(Some(document), path).Some?
      ensures IsSourcedAt(yaml, file, s.requests, path, Resolve(Some(document), path).value)
    {
      ResolveAfterInsert(root, request.key, request.value, path);
      assert path != request.key ==> Resolve(read, path) == Resolve(Some(Section(root)), path);
    }
  }

  lemma InitKeeps(yaml: Yaml, file: File, s: State)
    requires IsInitial(file, s)
    ensures Inv(yaml, file, s)
  {
  }

  /** A step's own process stays accounted for. */
  lemma StepKeepsOwn(yaml: Yaml, file: File, s: State, s': State, pid: Pid)
    requires IsFaithful(yaml) && Inv(yaml, file, s) && Step(yaml, s, s', pid)
    ensures ProcOk(yaml, file, s', pid)
  {
    assert ProcOk(yaml, file, s, pid);
    var proc := s.Proc(pid);
    if proc.Started? {
      ReadingKeepsOwn(yaml, file, s, s', pid);
    } else if proc.Prepared? {
      RenderingKeepsOwn(yaml, file, s, s', pid);
    } else if proc.Rendered? || proc.Writing? || proc.Written? {
      WritingKeepsOwn(yaml, file, s, s', pid);
    }
  }

  lemma ReadingKeepsOwn(yaml: Yaml, file: File, s: State, s': State, pid: Pid)
    requires IsFaithful(yaml) && TargetOk(yaml, file, s) && ProcOk(yaml, file, s, pid) && s.Proc(pid).Started?
    requires Step(yaml, s, s', pid)
    ensures ProcOk(yaml, file, s', pid)
  {
    var request := s.Proc(pid).request;
    if Prepare(yaml, s.target, request.key, request.value).Success? {
      PreparedIsSourced(yaml, file, s, request);
    }
  }

  lemma RenderingKeepsOwn(yaml: Yaml, file: File, s: State, s': State, pid: Pid)
    requires IsFaithful(yaml) && TargetOk(yaml, file, s) && ProcOk(yaml, file, s, pid) && s.Proc(pid).Prepared?
    requires Step(yaml, s, s', pid)
    ensures ProcOk(yaml, file, s', pid)
  {
    TargetReads(yaml, file, s);
  }

  lemma WritingKeepsOwn(yaml: Yaml, file: File, s: State, s': State, pid: Pid)
    requires ProcOk(yaml, file, s, pid) && Step(yaml, s, s', pid)
    requires s.Proc(pid).Rendered? || s.Proc(pid).Writing? || s.Proc(pid).Written?
    ensures ProcOk(yaml, file, s', pid)
  {
    var contents := s.Proc(pid).contents;
    assert contents[..|contents|] == contents && contents[..0] == "";
  }

  /** Requests only accumulate, and no step touches another process or its temporary file. */
  lemma StepFrame(yaml: Yaml, s: State, s': State, pid: Pid)
    requires Step(yaml, s, s', pid)
    ensures s.requests <= s'.requests
    ensures forall other :: other != pid ==>
              s'.Proc(other) == s.Proc(other) && (other in s'.temps <==> other in s.temps)
              && (other in s.temps ==> s'.temps[other] == s.temps[other])
    ensures s'.target == s.target
            || (s.Proc(pid).Written? && pid in s.temps && s'.target == Some(s.temps[pid]) && s'.requests == s.requests)
  {
  }

  lemma StepKeepsOthers(yaml: Yaml, file: File, s: State, s': State, pid: Pid, other: Pid)
    requires Inv(yaml, file, s) && Step(yaml, s, s', pid) && other != pid
    ensures ProcOk(yaml, file, s', other)
  {
    StepFrame(yaml, s, s', pid);
    assert ProcOk(yaml, file, s, other);
    match s.Proc(other) {
      case Prepared(document) => SourcedGrows(yaml, file, s.requests, s'.requests, document);
      case Rendered(document, _) => SourcedGrows(yaml, file, s.requests, s'.requests, document);
      case Writing(document, _, _) => SourcedGrows(yaml, file, s.requests, s'.requests, document);
      case Written(document, _) => SourcedGrows(yaml, file, s.requests, s'.requests, document);
      case _ =>
    }
  }

  lemma StepKeepsTarget(yaml: Yaml, file: File, s: State, s': State, pid: Pid)
    requires Inv(yaml, file, s) && Step(yaml, s, s', pid)
    ensures TargetOk(yaml, file, s')
  {
    StepFrame(yaml, s, s', pid);
    if s'.target == s.target {
      if s.target != file {
        var document :| IsRendering(yaml, file, s.requests, document, s.target.value);
        SourcedGrows(yaml, file, s.requests, s'.requests, document);
        assert IsRendering(yaml, file, s'.requests, document, s'.target.value);
      }
    } else {
      assert ProcOk(yaml, file, s, pid);
      assert IsRendering(yaml, file, s'.requests, s.Proc(pid).document, s'.target.value);
    }
  }

  lemma {:induction false} RunKeepsInv(yaml: Yaml, file: File, states: seq<State>, i: nat)
    requires IsFaithful(yaml) && IsRun(yaml, file, states) && i < |states|
    ensures Inv(yaml, file, states[i])
    decreases i
  {
    if i > 0 {
      RunKeepsInv(yaml, file, states, i - 1);
      assert Next(yaml, states[i - 1], states[i]);
      var pid :| Step(yaml, states[i - 1], states[i], pid);
      StepKeepsOwn(yaml, file, states[i - 1], states[i], pid);
      StepKeepsTarget(yaml, file, states[i - 1], states[i], pid);
      forall other ensures ProcOk(yaml, file, states[i], other) {
        if other != pid {
          StepKeepsOthers(yaml, file, states[i - 1], states[i], pid, other);
        }
      }
    } else {
      InitKeeps(yaml, file, states[0]);
    }
  }

  /**
  In every interleaving and at every crash point the file is the initial one or one
  complete rendering over the initial body; it parses whenever the initial file did, its
  body never changes even when updates are lost, and each scalar in it stood at that path
  initially or was requested for exactly that path.
  */
  lemma ConcurrentWritesKeepTheFile(yaml: Yaml, file: File, states: seq<State>, i: nat)
    requires IsFaithful(yaml) && IsRun(yaml, file, states) && i < |states|
    ensures var s := states[i];
            && (s.target == file
                || (s.target.Some? && exists document :: Render(yaml, file, document) == Success(s.target.value)))
            && ExistingBody(yaml, s.target) == ExistingBody(yaml, file)
            && (ReadFile(yaml, s.target).Success? <==> ReadFile(yaml, file).Success?)
            && (ReadFile(yaml, s.target).Success? ==>
                  forall path: Path | path != [] && Resolve(ReadFile(yaml, s.target).value, path).Some? ::
                    IsSourcedAt(yaml, file, s.requests, path, Resolve(ReadFile(yaml, s.target).value, path).value))
  {
    RunKeepsInv(yaml, file, states, i);
    TargetReads(yaml, file, states[i]);
  }

  /** A malformed file is never overwritten, whatever is attempted. */
  lemma MalformedFileIsNeverTouched(yaml: Yaml, file: File, states: seq<State>, i: nat)
    requires IsFaithful(yaml) && IsRun(yaml, file, states) && i < |states| && ReadFile(yaml, file).Failure?
    ensures states[i].target == file
  {
    RunKeepsInv(yaml, file, states, i);
  }

  // ---- Which updates survive ----

  predicate HoldsDocument(proc: Proc) {
    proc.Prepared? || proc.Rendered? || proc.Writing? || proc.Written?
  }

  /** The moment at which the process last read the file's document. */
  function ReadOf(states: seq<State>, i: nat, pid: Pid): (r: nat)
    requires i < |states|
    ensures r <= i
  {
    if i == 0 then 0
    else if states[i - 1].Proc(pid).Started? then i - 1
    else ReadOf(states, i - 1, pid)
  }

  /** The request for which it read. */
  function RequestOf(states: seq<State>, i: nat, pid: Pid): Option<Request>
    requires i < |states|
  {
    match states[ReadOf(states, i, pid)].Proc(pid)
    case Started(request) => Some(request)
    case _ => None
  }

  /** The step from state `i` replaces the file. */
  predicate Renames(states: seq<State>, i: nat, pid: Pid) {
    i + 1 < |states| && states[i].Proc(pid).Written? && states[i + 1].Proc(pid).Done?
  }

  lemma StepHolds(yaml: Yaml, s: State, s': State, pid: Pid)
    requires Step(yaml, s, s', pid) && HoldsDocument(s'.Proc(pid))
    ensures match s.Proc(pid)
            case Started(request) =>
              Prepare(yaml, s.target, request.key, request.value) == Success(s'.Proc(pid).document)
            case _ => HoldsDocument(s.Proc(pid)) && s'.Proc(pid).document == s.Proc(pid).document
  {
  }

  /** A document is held after a step because it was held before, or has just been made from what was read. */
  predicate HoldsFrom(yaml: Yaml, s: State, s': State, pid: Pid) {
    HoldsDocument(s'.Proc(pid)) ==>
      if s.Proc(pid).Started?
      then Prepare(yaml, s.target, s.Proc(pid).request.key, s.Proc(pid).request.value)
           == Success(s'.Proc(pid).document)
      else HoldsDocument(s.Proc(pid)) && s'.Proc(pid).document == s.Proc(pid).document
  }

  lemma NextHolds(yaml: Yaml, s: State, s': State, pid: Pid)
    requires Next(yaml, s, s')
    ensures HoldsFrom(yaml, s, s', pid)
  {
    var stepper :| Step(yaml, s, s', stepper);
    if HoldsDocument(s'.Proc(pid)) && stepper == pid {
      StepHolds(yaml, s, s', pid);
    } else if stepper != pid {
      StepFrame(yaml, s, s', stepper);
      assert s'.Proc(pid) == s.Proc(pid);
    }
  }

  ghost predicate AlwaysHoldsFrom(yaml: Yaml, states: seq<State>, pid: Pid) {
    forall k: nat | k < |states| - 1 :: HoldsFrom(yaml, states[k], states[k + 1], pid)
  }

  lemma {:induction false} HeldIsPrepared(yaml: Yaml, states: seq<State>, i: nat, pid: Pid)
    requires i < |states| && AlwaysHoldsFrom(yaml, states, pid)
    requires HoldsDocument(states[i].Proc(pid)) && !HoldsDocument(states[0].Proc(pid))
    ensures ReadOf(states, i, pid) < i && RequestOf(states, i, pid).Some?
    ensures var r, request := ReadOf(states, i, pid), RequestOf(states, i, pid).value;
            Prepare(yaml, states[r].target, request.key, request.value) == Success(states[i].Proc(pid).document)
    decreases i
  {
    assert HoldsFrom(yaml, states[i - 1], states[i], pid);
    if !states[i - 1].Proc(pid).Started? {
      HeldIsPrepared(yaml, states, i - 1, pid);
    }
  }

  /** A document that a process holds is the one it read, with its request inserted: an edit of it at that key. */
  lemma HeldIsRead(yaml: Yaml, file: File, states: seq<State>, i: nat, pid: Pid)
    requires IsRun(yaml, file, states) && i < |states| && HoldsDocument(states[i].Proc(pid))
    ensures ReadOf(states, i, pid) < i && RequestOf(states, i, pid).Some?
    ensures var r, request := ReadOf(states, i, pid), RequestOf(states, i, pid).value;
            && Prepare(yaml, states[r].target, request.key, request.value) == Success(states[i].Proc(pid).document)
            && ReadFile(yaml, states[r].target).Success?
            && IsDocumentEdit(ReadFile(yaml, states[r].target).value, states[i].Proc(pid).document,
                              request.key, request.value)
  {
    forall k: nat | k < |states| - 1 ensures HoldsFrom(yaml, states[k], states[k + 1], pid) {
      NextHolds(yaml, states[k], states[k + 1], pid);
    }
    HeldIsPrepared(yaml, states, i, pid);
    var r, request := ReadOf(states, i, pid), RequestOf(states, i, pid).value;
    PreparedIsEdit(yaml, states[r].target, request.key, request.value);
  }

  lemma RenameStep(yaml: Yaml, s: State, s': State, stepper: Pid, pid: Pid)
    requires Step(yaml, s, s', stepper) && s.Proc(pid).Written? && s'.Proc(pid).Done?
    ensures pid in s.temps && s'.target == Some(s.temps[pid])
  {
    if stepper != pid {
      StepFrame(yaml, s, s', stepper);
    }
  }

  lemma QuietStep(yaml: Yaml, s: State, s': State, stepper: Pid)
    requires Step(yaml, s, s', stepper) && !(s.Proc(stepper).Written? && s'.Proc(stepper).Done?)
    ensures s'.target == s.target
  {
  }

  lemma QuietStepKeepsTarget(yaml: Yaml, file: File, states: seq<State>, i: nat)
    requires IsRun(yaml, file, states) && i + 1 < |states| && forall pid :: !Renames(states, i, pid)
    ensures states[i + 1].target == states[i].target
  {
    assert Next(yaml, states[i], states[i + 1]);
    var stepper :| Step(yaml, states[i], states[i + 1], stepper);
    assert !Renames(states, i, stepper);
    QuietStep(yaml, states[i], states[i + 1], stepper);
  }

  lemma PreparedView(yaml: Yaml, file: File, request: Request)
    requires Prepare(yaml, file, request.key, request.value).Success?
    ensures ReadFile(yaml, file).Success?
    ensures ConfigRuns.FlatView(Some(Prepare(yaml, file, request.key, request.value).value))
            == ConfigRuns.FlatView(ReadFile(yaml, file).value)[request.key := String(request.value)]
  {
    var read := ReadFile(yaml, file).value;
    ConfigRuns.WriteRootKeepsView(read);
    ConfigRuns.InsertUpdatesView(WriteRoot(read), request.key, request.value);
  }

  /** The flat map of the scalars a file holds. */
  ghost function FlatAt(yaml: Yaml, file: File): Option<ConfigRuns.FlatMap> {
    ConfigRuns.FlatReading(ReadFile(yaml, file))
  }

  /**
  In every run each rename leaves the document that the process had read, at the moment it read
  it, edited at its own key, and so exactly the flat map it read with that key set; whatever
  happened in between is gone.
  */
  lemma RenameInstalls(yaml: Yaml, file: File, states: seq<State>, i: nat, pid: Pid)
    requires IsFaithful(yaml) && IsRun(yaml, file, states) && Renames(states, i, pid)
    ensures ReadOf(states, i, pid) < i && RequestOf(states, i, pid).Some?
    ensures var r, request := ReadOf(states, i, pid), RequestOf(states, i, pid).value;
            && ReadFile(yaml, states[r].target).Success? && IsRead(yaml, states[i + 1].target)
            && IsDocumentEdit(ReadFile(yaml, states[r].target).value, ReadFile(yaml, states[i + 1].target).value.value,
                              request.key, request.value)
            && FlatAt(yaml, states[i + 1].target)
               == Some(FlatAt(yaml, states[r].target).value[request.key := String(request.value)])
  {
    RunKeepsInv(yaml, file, states, i);
    HeldIsRead(yaml, file, states, i, pid);
    assert Next(yaml, states[i], states[i + 1]);
    var stepper :| Step(yaml, states[i], states[i + 1], stepper);
    RenameStep(yaml, states[i], states[i + 1], stepper, pid);
    assert ProcOk(yaml, file, states[i], pid);
    RenderRoundTrips(yaml, file, states[i].Proc(pid).document);
    PreparedView(yaml, states[ReadOf(states, i, pid)].target, RequestOf(states, i, pid).value);
  }

  /** The file holds a document. */
  predicate IsRead(yaml: Yaml, file: File) {
    ReadFile(yaml, file).Success? && ReadFile(yaml, file).value.Some?
  }

  /** The value stands at the key in the file of this state. */
  ghost predicate Stands(yaml: Yaml, s: State, request: Request) {
    ReadAt(yaml, s.target, request.key) == Some(String(request.value))
  }

  lemma RenameReads(yaml: Yaml, file: File, states: seq<State>, i: nat, pid: Pid, path: Path)
    requires IsFaithful(yaml) && IsRun(yaml, file, states) && Renames(states, i, pid) && path != []
    ensures ReadOf(states, i, pid) < i && RequestOf(states, i, pid).Some?
    ensures var r, request := ReadOf(states, i, pid), RequestOf(states, i, pid).value;
            ReadAt(yaml, states[i + 1].target, path)
            == if path == request.key then Some(String(request.value)) else ReadAt(yaml, states[r].target, path)
  {
    RenameInstalls(yaml, file, states, i, pid);
    var r := ReadOf(states, i, pid);
    ReadIsPick(yaml, states[i + 1].target, path);
    ReadIsPick(yaml, states[r].target, path);
  }

  lemma ReadIsPick(yaml: Yaml, file: File, path: Path)
    requires ReadFile(yaml, file).Success? && path != []
    ensures ReadAt(yaml, file, path) == ConfigRuns.Pick(ConfigRuns.FlatReading(ReadFile(yaml, file)).value, path)
  {
  }

  /**
  A later rename keeps a finished write: it sets the same key to the same value, or another
  key in a document read after the write had finished, or one that held the value anyway.
  */
  ghost predicate Keeps(yaml: Yaml, states: seq<State>, i: nat, write: Request, j: nat, pid: Pid)
    requires j < |states| && RequestOf(states, j, pid).Some?
  {
    var request := RequestOf(states, j, pid).value;
    if request.key == write.key then request.value == write.value
    else ReadOf(states, j, pid) > i || Stands(yaml, states[ReadOf(states, j, pid)], write)
  }

  ghost predicate AllKeep(yaml: Yaml, states: seq<State>, i: nat, write: Request, n: nat) {
    forall j, pid | i < j < n && Renames(states, j, pid) ::
      RequestOf(states, j, pid).Some? && Keeps(yaml, states, i, write, j, pid)
  }

  /** What the step from state `j` does to the scalar at a path: a rename installs another one, or nothing changes. */
  ghost predicate StepReads(yaml: Yaml, states: seq<State>, j: nat, path: Path)
    requires j + 1 < |states|
  {
    || (exists pid :: Installs(yaml, states, j, pid, path))
    || ReadAt(yaml, states[j + 1].target, path) == ReadAt(yaml, states[j].target, path)
  }

  ghost predicate Installs(yaml: Yaml, states: seq<State>, j: nat, pid: Pid, path: Path)
    requires j + 1 < |states|
  {
    && Renames(states, j, pid) && ReadOf(states, j, pid) < j && RequestOf(states, j, pid).Some?
    && var request := RequestOf(states, j, pid).value;
       ReadAt(yaml, states[j + 1].target, path)
       == if path == request.key then Some(String(request.value))
          else ReadAt(yaml, states[ReadOf(states, j, pid)].target, path)
  }

  lemma RunReads(yaml: Yaml, file: File, states: seq<State>, j: nat, path: Path)
    requires IsFaithful(yaml) && IsRun(yaml, file, states) && j + 1 < |states| && path != []
    ensures StepReads(yaml, states, j, path)
  {
    if pid :| Renames(states, j, pid) {
      RenameReads(yaml, file, states, j, pid, path);
      assert Installs(yaml, states, j, pid, path);
    } else {
      QuietStepKeepsTarget(yaml, file, states, j);
    }
  }

  ghost predicate StandsUpTo(yaml: Yaml, states: seq<State>, i: nat, write: Request, n: nat)
    requires n < |states|
  {
    forall k: nat | i < k <= n :: Stands(yaml, states[k], write)
  }

  /** If the write has stood so far, the step from state `j` leaves it standing. */
  ghost predicate Carries(yaml: Yaml, states: seq<State>, i: nat, write: Request, j: nat)
    requires j + 1 < |states|
  {
    StandsUpTo(yaml, states, i, write, j) ==> Stands(yaml, states[j + 1], write)
  }

  lemma {:induction false} CarriedStands(yaml: Yaml, states: seq<State>, i: nat, write: Request, n: nat)
    requires i < n < |states| && forall j: nat | i < j < n :: Carries(yaml, states, i, write, j)
    requires Stands(yaml, states[i + 1], write)
    ensures StandsUpTo(yaml, states, i, write, n)
    decreases n
  {
    if n > i + 1 {
      CarriedStands(yaml, states, i, write, n - 1);
      StandsOneMore(yaml, states, i, write, n - 1);
    }
  }

  lemma StandsOneMore(yaml: Yaml, states: seq<State>, i: nat, write: Request, j: nat)
    requires i < j && j + 1 < |states|
    ensures Carries(yaml, states, i, write, j) && StandsUpTo(yaml, states, i, write, j)
            ==> StandsUpTo(yaml, states, i, write, j + 1)
  {
    if Carries(yaml, states, i, write, j) && StandsUpTo(yaml, states, i, write, j) {
      assert Stands(yaml, states[j + 1], write);
      forall k: nat | i < k <= j + 1 ensures Stands(yaml, states[k], write) {
        assert k <= j || k == j + 1;
      }
    }
  }

  lemma KeptStep(yaml: Yaml, states: seq<State>, i: nat, write: Request, n: nat, j: nat)
    requires i < j < n < |states|
    ensures AllKeep(yaml, states, i, write, n) && StepReads(yaml, states, j, write.key) ==>
              Carries(yaml, states, i, write, j)
  {
    if AllKeep(yaml, states, i, write, n) && StandsUpTo(yaml, states, i, write, j) {
      assert Stands(yaml, states[j], write);
      forall pid | Installs(yaml, states, j, pid, write.key) ensures Stands(yaml, states[j + 1], write) {
        assert Keeps(yaml, states, i, write, j, pid);
        if ReadOf(states, j, pid) > i {
          assert Stands(yaml, states[ReadOf(states, j, pid)], write);
        }
      }
    }
  }

  lemma WriteStandsAtFirst(yaml: Yaml, file: File, states: seq<State>, i: nat, pid: Pid)
    requires IsFaithful(yaml) && IsRun(yaml, file, states) && Renames(states, i, pid) && RequestOf(states, i, pid).Some?
    ensures Stands(yaml, states[i + 1], RequestOf(states, i, pid).value)
  {
    RenameReads(yaml, file, states, i, pid, RequestOf(states, i, pid).value.key);
  }

  /**
  In every run: a finished write stands at every later moment up to state `n` if and only if
  every rename in between keeps it.
  */
  lemma WriteStandsIff(yaml: Yaml, file: File, states: seq<State>, i: nat, pid: Pid, n: nat)
    requires IsFaithful(yaml) && IsRun(yaml, file, states) && Renames(states, i, pid) && i < n < |states|
    ensures RequestOf(states, i, pid).Some?
    ensures var write := RequestOf(states, i, pid).value;
            StandsUpTo(yaml, states, i, write, n) <==> AllKeep(yaml, states, i, write, n)
  {
    HeldIsRead(yaml, file, states, i, pid);
    var write := RequestOf(states, i, pid).value;
    if AllKeep(yaml, states, i, write, n) {
      WriteStandsAtFirst(yaml, file, states, i, pid);
      forall j: nat | i < j < n ensures Carries(yaml, states, i, write, j) {
        RunReads(yaml, file, states, j, write.key);
        KeptStep(yaml, states, i, write, n, j);
      }
      CarriedStands(yaml, states, i, write, n);
    }
    if StandsUpTo(yaml, states, i, write, n) {
      forall j, other | i < j < n && Renames(states, j, other)
        ensures RequestOf(states, j, other).Some? && Keeps(yaml, states, i, write, j, other)
      {
        RenameReads(yaml, file, states, j, other, write.key);
        assert Stands(yaml, states[j + 1], write);
      }
    }
  }

  /** The value was nowhere at the key before: the write makes a difference. */
  ghost predicate IsNews(yaml: Yaml, states: seq<State>, i: nat, write: Request) {
    forall m | 0 <= m <= i && m < |states| :: !Stands(yaml, states[m], write)
  }

  /** Every rename in between sets the same value, or another key in a document read after the write had finished. */
  ghost predicate AllReadAfter(states: seq<State>, i: nat, write: Request, n: nat) {
    forall j, pid | i < j < n && j < |states| && Renames(states, j, pid) ::
      && RequestOf(states, j, pid).Some?
      && if RequestOf(states, j, pid).value.key == write.key then RequestOf(states, j, pid).value.value == write.value
         else ReadOf(states, j, pid) > i
  }

  /** An update is lost exactly when a rename resets its key or installs a document that was read before it. */
  lemma NewsStandsIff(yaml: Yaml, file: File, states: seq<State>, i: nat, pid: Pid, n: nat)
    requires IsFaithful(yaml) && IsRun(yaml, file, states) && Renames(states, i, pid) && i < n < |states|
    ensures RequestOf(states, i, pid).Some?
    ensures var write := RequestOf(states, i, pid).value;
            IsNews(yaml, states, i, write) ==>
              (StandsUpTo(yaml, states, i, write, n) <==> AllReadAfter(states, i, write, n))
  {
    WriteStandsIff(yaml, file, states, i, pid, n);
    var write := RequestOf(states, i, pid).value;
    if IsNews(yaml, states, i, write) {
      forall j, other | i < j < n && Renames(states, j, other) && RequestOf(states, j, other).Some?
        ensures ReadOf(states, j, other) <= i ==> !Stands(yaml, states[ReadOf(states, j, other)], write)
      {
      }
    }
  }

  /**
  Two writes of different keys, whatever happens in between: right after the second rename
  the later write stands, and the earlier one exactly if it stood when the later process
  read. With no rename between the two this is to have read after the first rename, unless
  the value written was there before.
  */
  lemma BothStandIff(yaml: Yaml, file: File, states: seq<State>, i: nat, p: Pid, j: nat, q: Pid)
    requires i < j && AreTwoWrites(states, i, p, j, q)
    ensures IsFaithful(yaml) && IsRun(yaml, file, states) ==>
            var earlier, later, r := RequestOf(states, i, p).value, RequestOf(states, j, q).value, ReadOf(states, j, q);
            && Stands(yaml, states[j + 1], later)
            && (Stands(yaml, states[j + 1], earlier) <==> Stands(yaml, states[r], earlier))
            && (NoRenameBetween(states, i, j) && IsNews(yaml, states, i, earlier) ==>
                  (Stands(yaml, states[j + 1], earlier) <==> r > i))
  {
    var earlier, later, r := RequestOf(states, i, p).value, RequestOf(states, j, q).value, ReadOf(states, j, q);
    if IsFaithful(yaml) && IsRun(yaml, file, states) {
      RenameReads(yaml, file, states, j, q, later.key);
      RenameReads(yaml, file, states, j, q, earlier.key);
      if r > i && NoRenameBetween(states, i, j) {
        assert AllKeep(yaml, states, i, earlier, j);
        WriteStandsIff(yaml, file, states, i, p, j);
      }
    }
  }

  /** Two finished writes of different keys. */
  predicate AreTwoWrites(states: seq<State>, i: nat, p: Pid, j: nat, q: Pid) {
    && Renames(states, i, p) && Renames(states, j, q)
    && RequestOf(states, i, p).Some? && RequestOf(states, j, q).Some?
    && RequestOf(states, i, p).value.key != RequestOf(states, j, q).value.key
  }

  ghost predicate NoRenameBetween(states: seq<State>, i: nat, j: nat) {
    forall m, pid | i < m < j :: !Renames(states, m, pid)
  }

  // ---- A process left alone ----

  ghost predicate IsSoloRun(yaml: Yaml, states: seq<State>, pid: Pid) {
    states != [] && forall i | 0 <= i < |states| - 1 :: Step(yaml, states[i], states[i + 1], pid)
  }

  /**
  A process that is not interrupted completes the write of the sequential store: same content, no
  temporary file left.
  */
  lemma SoloRunWrites(yaml: Yaml, s: State, pid: Pid, request: Request) returns (states: seq<State>)
    requires IsFree(s.Proc(pid)) && SetFile(yaml, s.target, request.key, request.value).Success?
    ensures IsSoloRun(yaml, states, pid) && states[0] == s
    ensures var contents := SetFile(yaml, s.target, request.key, request.value).value;
            states[|states| - 1] == Finished(s.(requests := s.requests + {request}), pid, contents)
  {
    var front := SoloRender(yaml, s, pid, request);
    var rest := SoloAtomicWrite(yaml, front[3], pid);
    states := front[..3] + rest;
  }

  predicate IsFree(proc: Proc) {
    proc.Idle? || proc.Done? || proc.Failed?
  }

  /** The state in which a process has just replaced the file. */
  function Finished(s: State, pid: Pid, contents: string): State {
    s.(target := Some(contents), temps := s.temps - {pid}).Become(pid, Done)
  }

  /** From a request to the rendering of its document, before anything is written. */
  lemma SoloRender(yaml: Yaml, s: State, pid: Pid, request: Request) returns (states: seq<State>)
    requires IsFree(s.Proc(pid)) && SetFile(yaml, s.target, request.key, request.value).Success?
    ensures |states| == 4 && states[0] == s && IsSoloRun(yaml, states, pid)
    ensures var document := Prepare(yaml, s.target, request.key, request.value).value;
            var contents := SetFile(yaml, s.target, request.key, request.value).value;
            states[3] == s.(requests := s.requests + {request}).Become(pid, Rendered(document, contents))
  {
    var document := Prepare(yaml, s.target, request.key, request.value).value;
    var contents := SetFile(yaml, s.target, request.key, request.value).value;
    var s1 := s.(requests := s.requests + {request}).Become(pid, Started(request));
    var s2 := s1.Become(pid, Prepared(document));
    var s3 := s2.Become(pid, Rendered(document, contents));
    assert Step(yaml, s, s1, pid);
    assert Step(yaml, s1, s2, pid);
    assert Step(yaml, s2, s3, pid);
    assert s3.procs == s.procs[pid := Rendered(document, contents)];
    states := [s, s1, s2, s3];
  }

  /** The atomic write from its first call to the rename. */
  lemma SoloAtomicWrite(yaml: Yaml, s: State, pid: Pid) returns (states: seq<State>)
    requires s.Proc(pid).Rendered?
    ensures IsSoloRun(yaml, states, pid) && states[0] == s
    ensures states[|states| - 1] == Finished(s, pid, s.Proc(pid).contents)
  {
    var document, contents := s.Proc(pid).document, s.Proc(pid).contents;
    assert contents[..|contents|] == contents;
    var s1 := s.(temps := s.temps[pid := ""]).Become(pid, Writing(document, contents, 0));
    var s2 := s1.(temps := s1.temps[pid := contents]).Become(pid, Writing(document, contents, |contents|));
    var s3 := s2.Become(pid, Written(document, contents));
    var s4 := s3.(target := Some(contents), temps := s3.temps - {pid}).Become(pid, Done);
    assert Advance(s1, s2, pid, |contents|);
    assert Step(yaml, s, s1, pid);
    assert Step(yaml, s1, s2, pid);
    assert Step(yaml, s2, s3, pid);
    assert Step(yaml, s3, s4, pid);
    assert s4.procs == s.procs[pid := Done] && s4.temps == s.temps - {pid};
    states := [s, s1, s2, s3, s4];
  }

  /** A crash in the middle of the write leaves any part of it behind, and the file as it was. */
  lemma CrashLeavesAnyPart(yaml: Yaml, s: State, pid: Pid, count: nat) returns (states: seq<State>)
    requires s.Proc(pid).Rendered? && count <= |s.Proc(pid).contents|
    ensures IsSoloRun(yaml, states, pid) && states[0] == s
    ensures states[|states| - 1] == s.(temps := s.temps[pid := s.Proc(pid).contents[..count]]).Become(pid, Idle)
  {
    var document, contents := s.Proc(pid).document, s.Proc(pid).contents;
    var s1 := s.(temps := s.temps[pid := ""]).Become(pid, Writing(document, contents, 0));
    var s2 := s1.(temps := s1.temps[pid := contents[..count]]).Become(pid, Writing(document, contents, count));
    var s3 := s2.Become(pid, Idle);
    assert Advance(s1, s2, pid, count);
    assert Step(yaml, s, s1, pid);
    assert Step(yaml, s1, s2, pid);
    assert Step(yaml, s2, s3, pid);
    assert s3.procs == s.procs[pid := Idle] && s3.temps == s.temps[pid := contents[..count]];
    states := [s, s1, s2, s3];
  }

  /** Every call can fail; the temporary file is then gone, or stays when its removal fails too. */
  lemma AnyCallCanFail(yaml: Yaml, s: State, pid: Pid)
    ensures s.Proc(pid).Started? || HoldsDocument(s.Proc(pid)) ==> Step(yaml, s, s.Become(pid, Failed), pid)
    ensures HoldsDocument(s.Proc(pid)) && !s.Proc(pid).Prepared? ==>
              Step(yaml, s, s.(temps := s.temps - {pid}).Become(pid, Failed), pid)
  {
  }

  // ---- Two writes, one after the other or overlapping ----

  ghost predicate IsPath(yaml: Yaml, states: seq<State>) {
    states != [] && forall i | 0 <= i < |states| - 1 :: Next(yaml, states[i], states[i + 1])
  }

  lemma SoloIsPath(yaml: Yaml, states: seq<State>, pid: Pid)
    requires IsSoloRun(yaml, states, pid)
    ensures IsPath(yaml, states)
  {
    forall i | 0 <= i < |states| - 1 ensures Next(yaml, states[i], states[i + 1]) {
      assert Step(yaml, states[i], states[i + 1], pid);
    }
  }

  lemma Chain(yaml: Yaml, a: seq<State>, b: seq<State>)
    requires IsPath(yaml, a) && IsPath(yaml, b) && a[|a| - 1] == b[0]
    ensures IsPath(yaml, a + b[1..])
    ensures (a + b[1..])[0] == a[0] && (a + b[1..])[|a + b[1..]| - 1] == b[|b| - 1]
  {
    var all := a + b[1..];
    forall i | 0 <= i < |all| - 1 ensures Next(yaml, all[i], all[i + 1]) {
      if i >= |a| - 1 {
        assert all[i] == b[i - |a| + 1] && all[i + 1] == b[i - |a| + 2];
      }
    }
  }

  function Start(file: File): State {
    State(file, map[], map[], {})
  }

  /** What is read at a path of a file. */
  ghost function ReadAt(yaml: Yaml, file: File, path: Path): Option<Scalar> {
    match ReadFile(yaml, file)
    case Failure(_) => None
    case Success(document) => Resolve(document, path)
  }

  lemma SetReadsAt(yaml: Yaml, file: File, request: Request, path: Path)
    requires IsFaithful(yaml) && path != [] && SetFile(yaml, file, request.key, request.value).Success?
    ensures ReadAt(yaml, Some(SetFile(yaml, file, request.key, request.value).value), path)
            == if path == request.key then Some(String(request.value)) else ReadAt(yaml, file, path)
  {
    SetThenRead(yaml, file, request.key, request.value);
    ReadIsPick(yaml, Some(SetFile(yaml, file, request.key, request.value).value), path);
    ReadIsPick(yaml, file, path);
  }

  /** Two writes that do not overlap both take effect. */
  lemma SequentialWritesBothStay(yaml: Yaml, file: File, a: Request, b: Request) returns (states: seq<State>)
    requires IsFaithful(yaml) && a.key != b.key && SetFile(yaml, file, a.key, a.value).Success?
    requires SetFile(yaml, Some(SetFile(yaml, file, a.key, a.value).value), b.key, b.value).Success?
    ensures IsRun(yaml, file, states)
    ensures var final := states[|states| - 1];
            && final.Proc(0) == Done && final.Proc(1) == Done
            && ReadAt(yaml, final.target, a.key) == Some(String(a.value))
            && ReadAt(yaml, final.target, b.key) == Some(String(b.value))
  {
    var first := SoloRunWrites(yaml, Start(file), 0, a);
    var second := SoloRunWrites(yaml, first[|first| - 1], 1, b);
    SoloIsPath(yaml, first, 0);
    SoloIsPath(yaml, second, 1);
    Chain(yaml, first, second);
    states := first + second[1..];
    var middle := Some(SetFile(yaml, file, a.key, a.value).value);
    SetReadsAt(yaml, file, a, a.key);
    SetReadsAt(yaml, middle, b, a.key);
    SetReadsAt(yaml, middle, b, b.key);
  }

  /** Two writes that overlap can both succeed and leave no trace of the one that finished first. */
  lemma OverlappingWritesLoseOne(yaml: Yaml, file: File, a: Request, b: Request) returns (states: seq<State>)
    requires IsFaithful(yaml) && a.key != b.key
    requires SetFile(yaml, file, a.key, a.value).Success? && SetFile(yaml, file, b.key, b.value).Success?
    ensures IsRun(yaml, file, states)
    ensures var final := states[|states| - 1];
            && final.Proc(0) == Done && final.Proc(1) == Done
            && ReadAt(yaml, final.target, a.key) == ReadAt(yaml, file, a.key)
            && ReadAt(yaml, final.target, b.key) == Some(String(b.value))
  {
    states := OverlappingRun(yaml, file, a, b);
    SetReadsAt(yaml, file, b, a.key);
    SetReadsAt(yaml, file, b, b.key);
  }

  /** Both processes read, then each writes. */
  lemma OverlappingRun(yaml: Yaml, file: File, a: Request, b: Request) returns (states: seq<State>)
    requires SetFile(yaml, file, a.key, a.value).Success? && SetFile(yaml, file, b.key, b.value).Success?
    ensures IsRun(yaml, file, states)
    ensures var final := states[|states| - 1];
            && final.Proc(0) == Done && final.Proc(1) == Done
            && final.target == Some(SetFile(yaml, file, b.key, b.value).value)
  {
    var renderA := SoloRender(yaml, Start(file), 0, a);
    var renderB := SoloRender(yaml, renderA[3], 1, b);
    var writeA := SoloAtomicWrite(yaml, renderB[3], 0);
    var writeB := SoloAtomicWrite(yaml, writeA[|writeA| - 1], 1);
    SoloIsPath(yaml, renderA, 0);
    SoloIsPath(yaml, renderB, 1);
    SoloIsPath(yaml, writeA, 0);
    SoloIsPath(yaml, writeB, 1);
    Chain(yaml, renderA, renderB);
    Chain(yaml, writeA, writeB);
    var front, back := renderA + renderB[1..], writeA + writeB[1..];
    Chain(yaml, front, back);
    states := front + back[1..];
  }
}
