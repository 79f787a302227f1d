/**
Any number of launcher processes sharing one cache directory without a lock: every file
operation is a step of its own, may fail, and may be the last one before a crash
(cli/launcher/src/launch/outbound/resolve/cache.rs, cli/launcher/src/launch/outbound/resolve/mod.rs).
*/
module CacheProtocol {
  import opened Wrappers
  import opened Verifier
  import opened CacheNames
  import opened CacheDirectory
  import opened Decimals
  import opened Resolver

  /** Where a process stands in resolving a name. */
  datatype Proc =
    | Idle
    | Scanning(name: string, version: string)                            // reading the directory
    | Seen(name: string, version: string, stem: string)                  // an entry's binary was listed
    | Hit(name: string, version: string, stem: string)                   // its signature exists
    | Loaded(name: string, version: string, stem: string, bytes: Bytes)  // the binary has been read back
    | Evicting(name: string, version: string, stem: string)
    | EvictingSignature(name: string, version: string, stem: string)
    | Fetching(name: string, version: string)
    | Storing(name: string, job: Job)                                    // fetched and verified
    | WritingBinary(name: string, job: Job, written: nat)
    | MarkingBinary(name: string, job: Job)
    | RenamingBinary(name: string, job: Job)
    | OpeningSignature(name: string, job: Job)
    | WritingSignature(name: string, job: Job, written: nat)
    | RenamingSignature(name: string, job: Job)
    | Listing(name: string, stem: string)                                // choosing what retention removes
    | Retaining(stem: string, victims: seq<string>, binaryGone: bool)
    | Returned(stem: string)
    | Failed

  datatype State = State(dir: Dir, procs: map<Pid, Proc>) {
    function Proc(pid: Pid): Proc {
      if pid in procs then procs[pid] else Idle
    }

    function Become(pid: Pid, proc: Proc): State {
      this.(procs := procs[pid := proc])
    }

    function With(dir: Dir, pid: Pid, proc: Proc): State {
      State(dir, procs[pid := proc])
    }
  }

  /** The job of a process that is in the middle of a store. */
  function Pending(proc: Proc): Option<Job> {
    match proc
    case Storing(_, job) => Some(job)
    case WritingBinary(_, job, _) => Some(job)
    case MarkingBinary(_, job) => Some(job)
    case RenamingBinary(_, job) => Some(job)
    case OpeningSignature(_, job) => Some(job)
    case WritingSignature(_, job, _) => Some(job)
    case RenamingSignature(_, job) => Some(job)
    case _ => None
  }

  ghost predicate Step(crypto: Crypto, s: State, s': State, pid: Pid) {
    var proc := s.Proc(pid);
    || s' == s.Become(pid, Idle)   // a crash: whatever was written stays
    // the fetch or a call of the store fails
    || ((proc.Fetching? || Pending(proc).Some?) && s' == s.Become(pid, Failed))
    || (if Pending(proc).Some? then StoreStep(s, s', pid) else ResolveStep(crypto, s, s', pid))
  }

  /** Everything but the store. */
  ghost predicate ResolveStep(crypto: Crypto, s: State, s': State, pid: Pid) {
    match s.Proc(pid)
    case Scanning(name, version) =>
      || (exists stem :: Sees(s, s', pid, stem))
      || s' == s.Become(pid, Fetching(name, version))
    case Seen(name, version, stem) =>
      s' == s.Become(pid, if SignatureName(stem) in s.dir then Hit(name, version, stem) else Scanning(name, version))
    case Hit(name, version, stem) =>
      s' == s.Become(pid, if stem in s.dir then Loaded(name, version, stem, s.dir[stem].bytes)
                          else Evicting(name, version, stem))
    case Loaded(name, version, stem, bytes) =>
      s' == s.Become(pid, if PassesNow(crypto, s.dir, stem, bytes) then Returned(stem)
                          else Evicting(name, version, stem))
    case Evicting(name, version, stem) => Drops(s, s', pid, stem, EvictingSignature(name, version, stem))
    case EvictingSignature(name, version, stem) => Drops(s, s', pid, SignatureName(stem), Fetching(name, version))
    case Fetching(name, version) => exists job :: Accepts(crypto, s, s', pid, job)
    case Listing(name, stem) => exists victims :: Chooses(s, s', pid, victims)
    case Retaining(stem, victims, binaryGone) =>
      if victims == [] then s' == s.Become(pid, Returned(stem))
      else if !binaryGone then Drops(s, s', pid, victims[0], Retaining(stem, victims, true))
      else Drops(s, s', pid, SignatureName(victims[0]), Retaining(stem, victims[1..], false))
    case _ => exists name, version :: s' == s.Become(pid, Scanning(name, version))
  }

  ghost predicate StoreStep(s: State, s': State, pid: Pid) {
    match s.Proc(pid)
    case Storing(name, job) => Writes(s, s', pid, TempBinary(job.stem, pid), [], WritingBinary(name, job, 0))
    case WritingBinary(name, job, written) =>
      if written == |job.bytes| then s' == s.Become(pid, MarkingBinary(name, job))
      else exists more ::
          && written <= more <= |job.bytes|
          && Writes(s, s', pid, TempBinary(job.stem, pid), job.bytes[..more], WritingBinary(name, job, more))
    case MarkingBinary(name, job) =>
      s' == s.With(MarkExecutable(s.dir, TempBinary(job.stem, pid)), pid, RenamingBinary(name, job))
    case RenamingBinary(name, job) =>
      Moves(s, s', pid, TempBinary(job.stem, pid), job.stem, OpeningSignature(name, job))
    case OpeningSignature(name, job) =>
      Writes(s, s', pid, TempSignature(job.stem, pid), [], WritingSignature(name, job, 0))
    case WritingSignature(name, job, written) =>
      if written == |job.signature| then s' == s.Become(pid, RenamingSignature(name, job))
      else exists more ::
          && written <= more <= |job.signature|
          && Writes(s, s', pid, TempSignature(job.stem, pid), job.signature[..more], WritingSignature(name, job, more))
    case RenamingSignature(name, job) =>
      Moves(s, s', pid, TempSignature(job.stem, pid), SignatureName(job.stem), Listing(name, job.stem))
    case _ => false
  }

  ghost predicate Sees(s: State, s': State, pid: Pid, stem: string) {
    var proc := s.Proc(pid);
    && proc.Scanning? && stem in s.dir && EntrySha(stem, proc.name, proc.version).Some?
    && s' == s.Become(pid, Seen(proc.name, proc.version, stem))
  }

  predicate PassesNow(crypto: Crypto, dir: Dir, stem: string, bytes: Bytes) {
    IsStem(stem) && SignatureName(stem) in dir
    && VerifyBinary(crypto, bytes, ShaOf(stem), dir[SignatureName(stem)].bytes).Pass?
  }

  /** The network delivers something that passes both checks against the manifest's checksum. */
  ghost predicate Accepts(crypto: Crypto, s: State, s': State, pid: Pid, job: Job) {
    var proc := s.Proc(pid);
    && proc.Fetching? && s' == s.Become(pid, Storing(proc.name, job))
    && exists sha ::
       job.stem == Stem(proc.name, proc.version, sha) && VerifyBinary(crypto, job.bytes, sha, job.signature).Pass?
  }

  /** Retention lists the directory and picks what to remove, all of it the name's. */
  ghost predicate Chooses(s: State, s': State, pid: Pid, victims: seq<string>) {
    var proc := s.Proc(pid);
    && proc.Listing? && s' == s.Become(pid, Retaining(proc.stem, victims, false))
    && forall victim | victim in victims :: IsRetained(victim, proc.name)
  }

  /** A removal, which may fail and is then ignored. */
  ghost predicate Drops(s: State, s': State, pid: Pid, file: string, proc: Proc) {
    s' == s.With(Remove(s.dir, file), pid, proc) || s' == s.Become(pid, proc)
  }

  ghost predicate Writes(s: State, s': State, pid: Pid, file: string, bytes: Bytes, proc: Proc) {
    exists now: nat :: s' == s.With(WriteFile(s.dir, file, bytes, now), pid, proc)
  }

  /** The atomic rename; when it fails the temporary file is removed, or that fails too. */
  ghost predicate Moves(s: State, s': State, pid: Pid, temp: string, final: string, proc: Proc) {
    || (temp in s.dir && s' == s.With(Rename(s.dir, temp, final), pid, proc))
    || s' == s.With(Remove(s.dir, temp), pid, Failed)
  }

  ghost predicate Next(crypto: Crypto, s: State, s': State) {
    exists pid :: Step(crypto, s, s', pid)
  }

  /** A run from any directory, all processes idle. */
  ghost predicate IsRun(crypto: Crypto, states: seq<State>) {
    && states != [] && states[0].procs == map[]
    && forall i | 0 <= i < |states| - 1 :: Next(crypto, states[i], states[i + 1])
  }

  // ---- What every step keeps ----

  ghost predicate TempHolds(dir: Dir, file: string, bytes: Bytes) {
    file in dir && dir[file].bytes == bytes
  }

  /** What a process may rely on. */
  ghost predicate ProcOk(crypto: Crypto, first: Dir, dir: Dir, pid: Pid, proc: Proc) {
    match proc
    case Seen(_, _, stem) => IsStem(stem)
    case Hit(_, _, stem) => IsStem(stem)
    case Loaded(_, _, stem, bytes) =>
      IsStem(stem) && (IsSound(crypto, first, stem) ==> IsGoodContent(crypto, stem, bytes))
    case Evicting(_, _, stem) => IsStem(stem)
    case EvictingSignature(_, _, stem) => IsStem(stem)
    case Storing(_, job) => IsVerifiedJob(crypto, job)
    case WritingBinary(_, job, written) =>
      && IsVerifiedJob(crypto, job) && written <= |job.bytes|
      && TempHolds(dir, TempBinary(job.stem, pid), job.bytes[..written])
    case MarkingBinary(_, job) => IsVerifiedJob(crypto, job) && TempHolds(dir, TempBinary(job.stem, pid), job.bytes)
    case RenamingBinary(_, job) =>
      && IsVerifiedJob(crypto, job) && TempHolds(dir, TempBinary(job.stem, pid), job.bytes)
      && dir[TempBinary(job.stem, pid)].executable
    case OpeningSignature(_, job) => IsVerifiedJob(crypto, job)
    case WritingSignature(_, job, written) =>
      && IsVerifiedJob(crypto, job) && written <= |job.signature|
      && TempHolds(dir, TempSignature(job.stem, pid), job.signature[..written])
    case RenamingSignature(_, job) =>
      IsVerifiedJob(crypto, job) && TempHolds(dir, TempSignature(job.stem, pid), job.signature)
    case Retaining(_, victims, _) => forall v | v in victims :: IsStem(v)
    case _ => true
  }

  ghost predicate StillSound(crypto: Crypto, first: Dir, dir: Dir) {
    forall stem | IsStem(stem) && IsSound(crypto, first, stem) :: IsSound(crypto, dir, stem)
  }

  /** No stem that was sound at the start is unsound now, and every process may rely on what it holds. */
  ghost predicate Inv(crypto: Crypto, first: Dir, s: State) {
    && StillSound(crypto, first, s.dir)
    && (forall pid :: ProcOk(crypto, first, s.dir, pid, s.Proc(pid)))
  }

  /** The file names a process in this position may change. */
  function Reach(pid: Pid, proc: Proc): set<string> {
    match proc
    case Evicting(_, _, stem) => {stem}
    case EvictingSignature(_, _, stem) => {SignatureName(stem)}
    case Storing(_, job) => {TempBinary(job.stem, pid)}
    case WritingBinary(_, job, _) => {TempBinary(job.stem, pid)}
    case MarkingBinary(_, job) => {TempBinary(job.stem, pid)}
    case RenamingBinary(_, job) => {TempBinary(job.stem, pid), job.stem}
    case OpeningSignature(_, job) => {TempSignature(job.stem, pid)}
    case WritingSignature(_, job, _) => {TempSignature(job.stem, pid)}
    case RenamingSignature(_, job) => {TempSignature(job.stem, pid), SignatureName(job.stem)}
    case Retaining(_, victims, _) => if victims == [] then {} else {victims[0], SignatureName(victims[0])}
    case _ => {}
  }

  /** A step changes its own process and the files within its reach, nothing else. */
  lemma StepFrame(crypto: Crypto, s: State, s': State, pid: Pid)
    requires Step(crypto, s, s', pid)
    ensures forall file | file !in Reach(pid, s.Proc(pid)) :: SameAt(s.dir, s'.dir, file)
    ensures forall other | other != pid :: s'.Proc(other) == s.Proc(other)
  {
    if StoreStep(s, s', pid) {
      StoreStepFrame(s, s', pid);
    }
  }

  lemma StoreStepFrame(s: State, s': State, pid: Pid)
    requires StoreStep(s, s', pid)
    ensures forall file | file !in Reach(pid, s.Proc(pid)) :: SameAt(s.dir, s'.dir, file)
    ensures forall other | other != pid :: s'.Proc(other) == s.Proc(other)
  {
  }

  /** No other process reaches a process's temporary files. */
  lemma TempsArePrivate(crypto: Crypto, first: Dir, dir: Dir, pid: Pid, proc: Proc, stem: string, other: Pid)
    requires ProcOk(crypto, first, dir, pid, proc) && other != pid
    ensures TempBinary(stem, other) !in Reach(pid, proc) && TempSignature(stem, other) !in Reach(pid, proc)
  {
    if proc.Evicting? || proc.EvictingSignature? {
      TempNamesApart(stem, other, proc.stem, proc.stem, pid);
    } else if proc.Retaining? {
      if proc.victims != [] {
        TempNamesApart(stem, other, proc.victims[0], proc.victims[0], pid);
      }
    } else if Pending(proc).Some? {
      var job := Pending(proc).value;
      TempNamesApart(stem, other, job.stem, job.stem, pid);
      TempNamesApart(job.stem, pid, job.stem, stem, other);
    }
  }

  /** What another process relies on, its own temporary files included, outlives the step. */
  lemma StepKeepsOthers(crypto: Crypto, first: Dir, s: State, s': State, pid: Pid, other: Pid)
    requires Inv(crypto, first, s) && Step(crypto, s, s', pid) && other != pid
    ensures ProcOk(crypto, first, s'.dir, other, s'.Proc(other))
  {
    StepFrame(crypto, s, s', pid);
    var proc := s.Proc(other);
    assert ProcOk(crypto, first, s.dir, pid, s.Proc(pid)) && ProcOk(crypto, first, s.dir, other, proc);
    if Pending(proc).Some? {
      var job := Pending(proc).value;
      TempsArePrivate(crypto, first, s.dir, pid, s.Proc(pid), job.stem, other);
      assert SameAt(s.dir, s'.dir, TempBinary(job.stem, other));
      assert SameAt(s.dir, s'.dir, TempSignature(job.stem, other));
    }
  }

  lemma AcceptedIsVerified(crypto: Crypto, s: State, s': State, pid: Pid, job: Job)
    requires IsCollisionFree(crypto) && Accepts(crypto, s, s', pid, job)
    ensures IsVerifiedJob(crypto, job)
  {
    var proc := s.Proc(pid);
    var sha :| job.stem == Stem(proc.name, proc.version, sha)
      && VerifyBinary(crypto, job.bytes, sha, job.signature).Pass?;
    HexDigestFacts(crypto, job.bytes, job.bytes);
    StemIsStem(proc.name, proc.version, sha);
  }

  lemma StepKeepsOwn(crypto: Crypto, first: Dir, s: State, s': State, pid: Pid)
    requires IsCollisionFree(crypto) && Inv(crypto, first, s) && Step(crypto, s, s', pid)
    ensures ProcOk(crypto, first, s'.dir, pid, s'.Proc(pid))
  {
    assert ProcOk(crypto, first, s.dir, pid, s.Proc(pid));
    if StoreStep(s, s', pid) {
      StoreStepKeepsOwn(crypto, first, s, s', pid);
    } else if ResolveStep(crypto, s, s', pid) {
      ResolveStepKeepsOwn(crypto, first, s, s', pid);
    }
  }

  lemma StoreStepKeepsOwn(crypto: Crypto, first: Dir, s: State, s': State, pid: Pid)
    requires ProcOk(crypto, first, s.dir, pid, s.Proc(pid)) && StoreStep(s, s', pid)
    ensures ProcOk(crypto, first, s'.dir, pid, s'.Proc(pid))
  {
    match s.Proc(pid) {
      case WritingBinary(_, job, _) => assert job.bytes[..|job.bytes|] == job.bytes;
      case WritingSignature(_, job, _) => assert job.signature[..|job.signature|] == job.signature;
      case _ =>
    }
  }

  lemma ResolveStepKeepsOwn(crypto: Crypto, first: Dir, s: State, s': State, pid: Pid)
    requires IsCollisionFree(crypto) && StillSound(crypto, first, s.dir)
    requires ProcOk(crypto, first, s.dir, pid, s.Proc(pid)) && ResolveStep(crypto, s, s', pid)
    ensures ProcOk(crypto, first, s'.dir, pid, s'.Proc(pid))
  {
    var proc := s.Proc(pid);
    if proc.Scanning? {
      if stem :| Sees(s, s', pid, stem) {
        EntryIsStem(stem, proc.name, proc.version);
      }
    } else if proc.Fetching? {
      var job :| Accepts(crypto, s, s', pid, job);
      AcceptedIsVerified(crypto, s, s', pid, job);
    } else if proc.Listing? {
      var victims :| Chooses(s, s', pid, victims);
      forall victim | victim in victims ensures IsStem(victim) {
        RetainedIsStem(victim, proc.name);
      }
    }
  }

  /**
  Removing files keeps soundness, and so does changing files that are neither the stem's binary
  nor its signature.
  */
  lemma SoundByFrame(crypto: Crypto, dir: Dir, dir': Dir, stem: string)
    requires IsStem(stem) && IsSound(crypto, dir, stem)
    requires SameAt(dir, dir', stem) || stem !in dir'
    requires SameAt(dir, dir', SignatureName(stem)) || SignatureName(stem) !in dir'
    ensures IsSound(crypto, dir', stem)
  {
  }

  lemma StepKeepsSound(crypto: Crypto, first: Dir, s: State, s': State, pid: Pid, stem: string)
    requires IsCollisionFree(crypto) && Inv(crypto, first, s) && Step(crypto, s, s', pid)
    requires IsStem(stem) && IsSound(crypto, s.dir, stem)
    ensures IsSound(crypto, s'.dir, stem)
  {
    assert ProcOk(crypto, first, s.dir, pid, s.Proc(pid));
    if StoreStep(s, s', pid) {
      StoreStepKeepsSound(crypto, first, s, s', pid, stem);
    } else {
      assert forall file :: file !in s'.dir || SameAt(s.dir, s'.dir, file);
      SoundByFrame(crypto, s.dir, s'.dir, stem);
    }
  }

  lemma StoreStepKeepsSound(crypto: Crypto, first: Dir, s: State, s': State, pid: Pid, stem: string)
    requires IsCollisionFree(crypto) && ProcOk(crypto, first, s.dir, pid, s.Proc(pid)) && StoreStep(s, s', pid)
    requires IsStem(stem) && IsSound(crypto, s.dir, stem)
    ensures IsSound(crypto, s'.dir, stem)
  {
    var proc := s.Proc(pid);
    if proc.RenamingBinary? {
      BinaryMoveKeepsSound(crypto, s, s', pid, proc.job, stem);
    } else if proc.RenamingSignature? {
      SignatureMoveKeepsSound(crypto, s, s', pid, proc.job, stem);
    } else {
      StoreStepFrame(s, s', pid);
      TempNamesApart(Pending(proc).value.stem, pid, stem, stem, pid);
      SoundByFrame(crypto, s.dir, s'.dir, stem);
    }
  }

  lemma BinaryMoveKeepsSound(crypto: Crypto, s: State, s': State, pid: Pid, job: Job, stem: string)
    requires IsCollisionFree(crypto) && IsVerifiedJob(crypto, job) && IsStem(stem) && IsSound(crypto, s.dir, stem)
    requires var temp := TempBinary(job.stem, pid);
             && TempHolds(s.dir, temp, job.bytes) && s.dir[temp].executable
             && (s'.dir == s.dir || s'.dir == Remove(s.dir, temp) || s'.dir == Rename(s.dir, temp, job.stem))
    ensures IsSound(crypto, s'.dir, stem)
  {
    TempNamesApart(job.stem, pid, stem, stem, pid);
    VerifiedJobIsGood(crypto, job, s.dir[TempBinary(job.stem, pid)]);
    SuffixIsNotStem(stem);
  }

  lemma SignatureMoveKeepsSound(crypto: Crypto, s: State, s': State, pid: Pid, job: Job, stem: string)
    requires IsCollisionFree(crypto) && IsVerifiedJob(crypto, job) && IsStem(stem) && IsSound(crypto, s.dir, stem)
    requires var temp := TempSignature(job.stem, pid);
             && TempHolds(s.dir, temp, job.signature)
             && (s'.dir == s.dir || s'.dir == Remove(s.dir, temp)
                 || s'.dir == Rename(s.dir, temp, SignatureName(job.stem)))
    ensures IsSound(crypto, s'.dir, stem)
  {
    TempNamesApart(job.stem, pid, stem, stem, pid);
    VerifiedJobIsGood(crypto, job, FileEntry(job.bytes, true, 0));
    SuffixInjective(stem, job.stem);
    SuffixIsNotStem(job.stem);
  }

  lemma {:induction false} RunKeepsInv(crypto: Crypto, states: seq<State>, i: nat)
    requires IsCollisionFree(crypto) && IsRun(crypto, states) && i < |states|
    ensures Inv(crypto, states[0].dir, states[i])
    decreases i
  {
    if i > 0 {
      RunKeepsInv(crypto, states, i - 1);
      var first, s, s' := states[0].dir, states[i - 1], states[i];
      assert Next(crypto, s, s');
      var pid :| Step(crypto, s, s', pid);
      forall other ensures ProcOk(crypto, first, s'.dir, other, s'.Proc(other)) {
        if other == pid {
          StepKeepsOwn(crypto, first, s, s', pid);
        } else {
          StepKeepsOthers(crypto, first, s, s', pid, other);
        }
      }
      forall stem | IsStem(stem) && IsSound(crypto, first, stem) ensures IsSound(crypto, s'.dir, stem) {
        StepKeepsSound(crypto, first, s, s', pid, stem);
      }
    }
  }

  // ---- Safety of every run ----

  /** A directory in which whatever stands under an entry's name is good; an empty one, for instance. */
  ghost predicate IsClean(crypto: Crypto, dir: Dir) {
    forall stem | IsStem(stem) :: IsSound(crypto, dir, stem)
  }

  /**
  In every interleaving and after every crash, a stem that was sound at the start is sound:
  badness never spreads.
  */
  lemma TaintNeverSpreads(crypto: Crypto, states: seq<State>, i: nat, stem: string)
    requires IsCollisionFree(crypto) && IsRun(crypto, states) && i < |states|
    requires IsStem(stem) && IsSound(crypto, states[0].dir, stem)
    ensures IsSound(crypto, states[i].dir, stem)
  {
    RunKeepsInv(crypto, states, i);
  }

  /**
  From a clean directory, whatever `find` can return at any moment of any run is a
  complete, executable binary with the checksum in its name and a signature that verifies
  it; no temporary file of any process is ever visible.
  */
  lemma VisibleIsAlwaysGood(crypto: Crypto, states: seq<State>, i: nat, name: string, version: string, file: string)
    requires IsCollisionFree(crypto) && IsRun(crypto, states) && i < |states| && IsClean(crypto, states[0].dir)
    requires IsVisible(states[i].dir, name, version, file)
    ensures IsVerified(crypto, states[i].dir, file) && states[i].dir[file].executable
    ensures EntrySha(file, name, version) == Some(HexDigest(crypto, states[i].dir[file].bytes))
    ensures forall stem, pid :: file != TempBinary(stem, pid) && file != TempSignature(stem, pid)
  {
    RunKeepsInv(crypto, states, i);
    VisibleIsStem(states[i].dir, name, version, file);
    SoundIsVerified(crypto, states[i].dir, name, version, file);
    forall stem, pid ensures file != TempBinary(stem, pid) && file != TempSignature(stem, pid) {
      TempNamesApart(stem, pid, file, stem, pid);
    }
  }

  /** A step into eviction comes from a file that is missing or from a check that fails. */
  lemma EvictionComesFrom(crypto: Crypto, s: State, s': State, pid: Pid)
    requires Step(crypto, s, s', pid) && s'.Proc(pid).Evicting?
    ensures match s.Proc(pid)
            case Hit(_, _, stem) => stem !in s.dir
            case Loaded(_, _, stem, bytes) => !PassesNow(crypto, s.dir, stem, bytes)
            case _ => false
  {
  }

  lemma SoundPasses(crypto: Crypto, dir: Dir, stem: string, bytes: Bytes)
    requires IsStem(stem) && IsGoodContent(crypto, stem, bytes) && IsSound(crypto, dir, stem)
    requires SignatureName(stem) in dir
    ensures PassesNow(crypto, dir, stem, bytes)
  {
  }

  /** Looking for an entry or re-verifying one. */
  predicate IsReading(proc: Proc) {
    proc.Scanning? || proc.Seen? || proc.Hit? || proc.Loaded?
  }

  /** The process has found this file in the directory since it began to look. */
  predicate HasSeen(proc: Proc, file: string) {
    || ((proc.Seen? || proc.Hit? || proc.Loaded?) && file == proc.stem)
    || ((proc.Hit? || proc.Loaded?) && file == SignatureName(proc.stem))
  }

  lemma StepSees(crypto: Crypto, s: State, s': State, pid: Pid, file: string)
    requires Step(crypto, s, s', pid) && HasSeen(s'.Proc(pid), file)
    ensures IsReading(s.Proc(pid)) && (file in s.dir || HasSeen(s.Proc(pid), file))
  {
    ReadingFollowsReading(crypto, s, s', pid);
  }

  lemma ReadingFollowsReading(crypto: Crypto, s: State, s': State, pid: Pid)
    requires Step(crypto, s, s', pid) && IsReading(s'.Proc(pid)) && !s'.Proc(pid).Scanning?
    ensures IsReading(s.Proc(pid))
  {
  }

  ghost predicate ReadsThroughout(states: seq<State>, m: nat, i: nat, pid: Pid) {
    forall k | m <= k <= i && k < |states| :: IsReading(states[k].Proc(pid))
  }

  /** The process looked the file up where the run says so. */
  ghost predicate SeesByLooking(states: seq<State>, pid: Pid, file: string) {
    forall k: nat | k < |states| - 1 :: LooksUp(states[k], states[k + 1], pid, file)
  }

  predicate LooksUp(s: State, s': State, pid: Pid, file: string) {
    HasSeen(s'.Proc(pid), file) ==> IsReading(s.Proc(pid)) && (file in s.dir || HasSeen(s.Proc(pid), file))
  }

  lemma NextLooksUp(crypto: Crypto, s: State, s': State, pid: Pid, file: string)
    requires Next(crypto, s, s')
    ensures LooksUp(s, s', pid, file)
  {
    if HasSeen(s'.Proc(pid), file) {
      var stepper :| Step(crypto, s, s', stepper);
      if stepper == pid {
        StepSees(crypto, s, s', pid, file);
      } else {
        StepFrame(crypto, s, s', stepper);
        assert s'.Proc(pid) == s.Proc(pid);
      }
    }
  }

  lemma RunSeesByLooking(crypto: Crypto, states: seq<State>, pid: Pid, file: string)
    requires IsRun(crypto, states)
    ensures SeesByLooking(states, pid, file)
  {
    forall k: nat | k < |states| - 1 ensures LooksUp(states[k], states[k + 1], pid, file) {
      NextLooksUp(crypto, states[k], states[k + 1], pid, file);
    }
  }

  /** A file the process has seen was there at some earlier moment, and it has only been reading since. */
  lemma {:induction false} WasThere(states: seq<State>, i: nat, pid: Pid, file: string) returns (m: nat)
    requires SeesByLooking(states, pid, file) && i < |states|
    requires HasSeen(states[i].Proc(pid), file) && !HasSeen(states[0].Proc(pid), file)
    ensures m < i && file in states[m].dir && ReadsThroughout(states, m, i, pid)
    decreases i
  {
    var s := states[i - 1];
    assert LooksUp(s, states[i], pid, file);
    if HasSeen(s.Proc(pid), file) {
      m := WasThere(states, i - 1, pid, file);
    } else {
      m := i - 1;
    }
  }

  lemma {:induction false} GoesMissing(states: seq<State>, m: nat, i: nat, file: string) returns (j: nat)
    requires m < i < |states| && file in states[m].dir && file !in states[i].dir
    ensures m <= j < i && file in states[j].dir && file !in states[j + 1].dir
    decreases i
  {
    if file in states[i - 1].dir {
      j := i - 1;
    } else {
      j := GoesMissing(states, m, i - 1, file);
    }
  }

  /** What a process evicting an entry or enforcing retention is about to remove. */
  predicate IsRemoving(proc: Proc) {
    proc.Evicting? || proc.EvictingSignature? || proc.Retaining?
  }

  /** Nothing else removes a file of an entry: a store only removes its own temporary files. */
  lemma RemovalIsDeliberate(crypto: Crypto, s: State, s': State, pid: Pid, stem: string, file: string)
    requires Step(crypto, s, s', pid) && IsStem(stem) && (file == stem || file == SignatureName(stem))
    requires file in s.dir && file !in s'.dir
    ensures IsRemoving(s.Proc(pid))
  {
    if StoreStep(s, s', pid) {
      StoreRemovesTempsOnly(s, s', pid, stem, file);
      assert false;
    }
  }

  lemma StoreRemovesTempsOnly(s: State, s': State, pid: Pid, stem: string, file: string)
    requires StoreStep(s, s', pid) && IsStem(stem) && (file == stem || file == SignatureName(stem))
    requires file in s.dir
    ensures file in s'.dir
  {
    TempNamesApart(Pending(s.Proc(pid)).value.stem, pid, stem, stem, pid);
  }

  /** The file without which the re-verification fails: the binary when it is read back, then its signature. */
  function MissingFile(proc: Proc): string
    requires proc.Hit? || proc.Loaded?
  {
    if proc.Hit? then proc.stem else SignatureName(proc.stem)
  }

  /**
  No false alarm: from a clean directory a re-verification can only fail because another process,
  itself evicting or enforcing retention, removed a file of the entry while this one was
  reading it.
  */
  lemma ReverifyFailsOnlyOnRemoval(crypto: Crypto, states: seq<State>, i: nat, pid: Pid)
      returns (j: nat, other: Pid)
    requires IsCollisionFree(crypto) && IsRun(crypto, states) && i + 1 < |states| && IsClean(crypto, states[0].dir)
    requires Step(crypto, states[i], states[i + 1], pid)
    requires states[i + 1].Proc(pid).Evicting?
    ensures states[i].Proc(pid).Hit? || states[i].Proc(pid).Loaded?
    ensures var missing := MissingFile(states[i].Proc(pid));
            && missing !in states[i].dir
            && j < i && missing in states[j].dir && missing !in states[j + 1].dir
    ensures other != pid && Step(crypto, states[j], states[j + 1], other) && IsRemoving(states[j].Proc(other))
    ensures ReadsThroughout(states, j, i, pid)
  {
    FailsOnMissing(crypto, states, i, pid);
    var stem, missing := states[i].Proc(pid).stem, MissingFile(states[i].Proc(pid));
    RunSeesByLooking(crypto, states, pid, missing);
    var m := WasThere(states, i, pid, missing);
    j := GoesMissing(states, m, i, missing);
    assert Next(crypto, states[j], states[j + 1]);
    other :| Step(crypto, states[j], states[j + 1], other);
    RemovalIsDeliberate(crypto, states[j], states[j + 1], other, stem, missing);
    assert IsReading(states[j].Proc(pid));
  }

  lemma FailsOnMissing(crypto: Crypto, states: seq<State>, i: nat, pid: Pid)
    requires IsCollisionFree(crypto) && IsRun(crypto, states) && i + 1 < |states| && IsClean(crypto, states[0].dir)
    requires Step(crypto, states[i], states[i + 1], pid)
    requires states[i + 1].Proc(pid).Evicting?
    ensures (states[i].Proc(pid).Hit? || states[i].Proc(pid).Loaded?) && IsStem(states[i].Proc(pid).stem)
    ensures MissingFile(states[i].Proc(pid)) !in states[i].dir
  {
    EvictionComesFrom(crypto, states[i], states[i + 1], pid);
    RunKeepsInv(crypto, states, i);
    var s, proc := states[i], states[i].Proc(pid);
    assert ProcOk(crypto, states[0].dir, s.dir, pid, proc);
    if proc.Loaded? && SignatureName(proc.stem) in s.dir {
      SoundPasses(crypto, s.dir, proc.stem, proc.bytes);
    }
  }

  // ---- What a process is given, from any directory ----

  ghost predicate IsGoodIfPresent(crypto: Crypto, dir: Dir, stem: string) {
    IsStem(stem) && (stem in dir ==> IsGoodContent(crypto, stem, dir[stem].bytes))
  }

  /** What a process has verified or stored itself is good as long as it is there. */
  ghost predicate ContentOk(crypto: Crypto, dir: Dir, proc: Proc) {
    match proc
    case Loaded(_, _, stem, bytes) =>
      IsStem(stem) && (IsGoodContent(crypto, stem, bytes) ==> IsGoodIfPresent(crypto, dir, stem))
    case OpeningSignature(_, job) => IsGoodIfPresent(crypto, dir, job.stem)
    case WritingSignature(_, job, _) => IsGoodIfPresent(crypto, dir, job.stem)
    case RenamingSignature(_, job) => IsGoodIfPresent(crypto, dir, job.stem)
    case Listing(_, stem) => IsGoodIfPresent(crypto, dir, stem)
    case Retaining(stem, _, _) => IsGoodIfPresent(crypto, dir, stem)
    case Returned(stem) => IsGoodIfPresent(crypto, dir, stem)
    case _ => true
  }

  lemma VerifiedIsGood(crypto: Crypto, job: Job)
    requires IsVerifiedJob(crypto, job)
    ensures IsGoodContent(crypto, job.stem, job.bytes)
  {
    assert crypto.verifies(job.bytes, job.signature);
  }

  /** Only verified content is ever moved under an entry's name. */
  lemma StepKeepsGood(crypto: Crypto, first: Dir, s: State, s': State, pid: Pid, stem: string)
    requires ProcOk(crypto, first, s.dir, pid, s.Proc(pid)) && Step(crypto, s, s', pid)
    requires IsGoodIfPresent(crypto, s.dir, stem)
    ensures IsGoodIfPresent(crypto, s'.dir, stem)
  {
    var proc := s.Proc(pid);
    if StoreStep(s, s', pid) {
      var job := Pending(proc).value;
      StoreStepFrame(s, s', pid);
      TempNamesApart(job.stem, pid, stem, stem, pid);
      SuffixIsNotStem(job.stem);
      VerifiedIsGood(crypto, job);
      if proc.RenamingBinary? {
        TempNamesApart(job.stem, pid, job.stem, job.stem, pid);
      } else {
        assert SameAt(s.dir, s'.dir, stem);
      }
    }
  }

  lemma StepKeepsOwnContent(crypto: Crypto, first: Dir, s: State, s': State, pid: Pid)
    requires ProcOk(crypto, first, s.dir, pid, s.Proc(pid)) && Step(crypto, s, s', pid)
    requires ContentOk(crypto, s.dir, s.Proc(pid))
    ensures ContentOk(crypto, s'.dir, s'.Proc(pid))
  {
    var proc := s.Proc(pid);
    if StoreStep(s, s', pid) {
      StoreStepKeepsContent(crypto, first, s, s', pid);
    } else if ResolveStep(crypto, s, s', pid) {
      if proc.Retaining? {
        StepKeepsGood(crypto, first, s, s', pid, proc.stem);
      }
    }
  }

  lemma StoreStepKeepsContent(crypto: Crypto, first: Dir, s: State, s': State, pid: Pid)
    requires ProcOk(crypto, first, s.dir, pid, s.Proc(pid)) && StoreStep(s, s', pid)
    requires ContentOk(crypto, s.dir, s.Proc(pid))
    ensures ContentOk(crypto, s'.dir, s'.Proc(pid))
  {
    var proc := s.Proc(pid);
    var job := Pending(proc).value;
    if proc.RenamingBinary? {
      VerifiedIsGood(crypto, job);
    } else if IsSigning(proc) {
      StepKeepsGood(crypto, first, s, s', pid, job.stem);
    }
  }

  lemma StepKeepsOthersContent(crypto: Crypto, first: Dir, s: State, s': State, pid: Pid, proc: Proc)
    requires ProcOk(crypto, first, s.dir, pid, s.Proc(pid)) && Step(crypto, s, s', pid)
    requires ContentOk(crypto, s.dir, proc)
    ensures ContentOk(crypto, s'.dir, proc)
  {
    var subject := SubjectOf(proc);
    if subject.Some? && IsGoodIfPresent(crypto, s.dir, subject.value) {
      StepKeepsGood(crypto, first, s, s', pid, subject.value);
    }
  }

  function SubjectOf(proc: Proc): Option<string> {
    match proc
    case Loaded(_, _, stem, _) => Some(stem)
    case Listing(_, stem) => Some(stem)
    case Retaining(stem, _, _) => Some(stem)
    case Returned(stem) => Some(stem)
    case _ => if Pending(proc).Some? then Some(Pending(proc).value.stem) else None
  }

  lemma NextKeepsContent(crypto: Crypto, first: Dir, s: State, s': State, pid: Pid)
    requires Inv(crypto, first, s) && Next(crypto, s, s') && ContentOk(crypto, s.dir, s.Proc(pid))
    ensures ContentOk(crypto, s'.dir, s'.Proc(pid))
  {
    var stepper :| Step(crypto, s, s', stepper);
    assert ProcOk(crypto, first, s.dir, stepper, s.Proc(stepper));
    if stepper == pid {
      StepKeepsOwnContent(crypto, first, s, s', pid);
    } else {
      StepFrame(crypto, s, s', stepper);
      StepKeepsOthersContent(crypto, first, s, s', stepper, s.Proc(pid));
    }
  }

  lemma {:induction false} RunKeepsContent(crypto: Crypto, states: seq<State>, i: nat, pid: Pid)
    requires IsCollisionFree(crypto) && IsRun(crypto, states) && i < |states|
    ensures ContentOk(crypto, states[i].dir, states[i].Proc(pid))
    decreases i
  {
    if i > 0 {
      RunKeepsContent(crypto, states, i - 1, pid);
      RunKeepsInv(crypto, states, i - 1);
      assert Next(crypto, states[i - 1], states[i]);
      NextKeepsContent(crypto, states[0].dir, states[i - 1], states[i], pid);
    }
  }

  /**
  From any directory, poisoned or not, in every interleaving and after every crash: an entry
  that a process has been given holds content with the checksum in its name that some
  trusted signature covers, for as long as it is there.
  */
  lemma ReturnedIsGood(crypto: Crypto, states: seq<State>, i: nat, pid: Pid, stem: string)
    requires IsCollisionFree(crypto) && IsRun(crypto, states) && i < |states|
    requires states[i].Proc(pid) == Returned(stem) && stem in states[i].dir
    ensures IsStem(stem) && IsGoodContent(crypto, stem, states[i].dir[stem].bytes)
  {
    RunKeepsContent(crypto, states, i, pid);
  }

  // ---- The store, step by step and at once ----

  /** The sequential contract, with the date the binary has been given. */
  ghost predicate IsStoreSoFar(first: Dir, dir: Dir, job: Job, pid: Pid, reached: Reached) {
    IsStore(first, dir, job, pid, Modified(dir, job.stem), reached)
  }

  predicate IsSigning(proc: Proc) {
    proc.OpeningSignature? || proc.WritingSignature? || proc.RenamingSignature?
  }

  /** How far a store that no other process interrupts has come, from the directory it began in. */
  ghost predicate HasProgressed(first: Dir, dir: Dir, pid: Pid, proc: Proc, job: Job) {
    if proc.Listing? then IsStoreSoFar(first, dir, job, pid, Both)
    else if IsSigning(proc) then Pending(proc) == Some(job) && IsStoreSoFar(first, dir, job, pid, BinaryOnly)
    else if Pending(proc).Some? then Pending(proc) == Some(job) && IsStoreSoFar(first, dir, job, pid, Neither)
    else IsStoreSoFar(first, dir, job, pid, BinaryOnly) || IsStoreSoFar(first, dir, job, pid, Neither)
  }

  lemma StoreStepProgresses(crypto: Crypto, first: Dir, base: Dir, s: State, s': State, pid: Pid, job: Job)
    requires ProcOk(crypto, base, s.dir, pid, s.Proc(pid)) && Pending(s.Proc(pid)) == Some(job) && StoreStep(s, s', pid)
    requires HasProgressed(first, s.dir, pid, s.Proc(pid), job)
    ensures HasProgressed(first, s'.dir, pid, s'.Proc(pid), job)
  {
    TempNamesApart(job.stem, pid, job.stem, job.stem, pid);
    StoreStepFrame(s, s', pid);
    assert forall file | file !in JobNames(job, pid) :: SameAt(first, s.dir, file) && SameAt(s.dir, s'.dir, file);
    assert SameAt(first, s.dir, SignatureName(job.stem));
    var proc := s.Proc(pid);
    if proc.RenamingSignature? {
      SignatureRenameProgresses(crypto, base, first, s, s', pid, job);
    } else if proc.RenamingBinary? {
      BinaryRenameProgresses(crypto, base, first, s, s', pid, job);
    } else {
      WriteProgresses(first, s, s', pid, job);
    }
  }

  lemma WriteProgresses(first: Dir, s: State, s': State, pid: Pid, job: Job)
    requires Pending(s.Proc(pid)) == Some(job) && StoreStep(s, s', pid)
    requires !s.Proc(pid).RenamingBinary? && !s.Proc(pid).RenamingSignature?
    requires HasProgressed(first, s.dir, pid, s.Proc(pid), job)
    requires forall file | file !in JobNames(job, pid) :: SameAt(first, s'.dir, file)
    requires SameAt(s.dir, s'.dir, job.stem) && SameAt(s.dir, s'.dir, SignatureName(job.stem))
    requires TempBinary(job.stem, pid) != TempSignature(job.stem, pid)
    ensures HasProgressed(first, s'.dir, pid, s'.Proc(pid), job)
  {
    if IsSigning(s.Proc(pid)) {
      SignatureWriteProgresses(first, s, s', pid, job);
    } else {
      BinaryWriteProgresses(first, s, s', pid, job);
    }
  }

  lemma BinaryWriteProgresses(first: Dir, s: State, s': State, pid: Pid, job: Job)
    requires Pending(s.Proc(pid)) == Some(job) && StoreStep(s, s', pid)
    requires !s.Proc(pid).RenamingBinary? && !s.Proc(pid).RenamingSignature?
    requires HasProgressed(first, s.dir, pid, s.Proc(pid), job)
    requires forall file | file !in JobNames(job, pid) :: SameAt(first, s'.dir, file)
    requires SameAt(s.dir, s'.dir, job.stem) && SameAt(s.dir, s'.dir, SignatureName(job.stem))
    requires TempBinary(job.stem, pid) != TempSignature(job.stem, pid)
    requires !IsSigning(s.Proc(pid))
    ensures HasProgressed(first, s'.dir, pid, s'.Proc(pid), job)
  {
  }

  lemma SignatureWriteProgresses(first: Dir, s: State, s': State, pid: Pid, job: Job)
    requires Pending(s.Proc(pid)) == Some(job) && StoreStep(s, s', pid)
    requires !s.Proc(pid).RenamingBinary? && !s.Proc(pid).RenamingSignature?
    requires HasProgressed(first, s.dir, pid, s.Proc(pid), job)
    requires forall file | file !in JobNames(job, pid) :: SameAt(first, s'.dir, file)
    requires SameAt(s.dir, s'.dir, job.stem) && SameAt(s.dir, s'.dir, SignatureName(job.stem))
    requires TempBinary(job.stem, pid) != TempSignature(job.stem, pid)
    requires IsSigning(s.Proc(pid))
    ensures HasProgressed(first, s'.dir, pid, s'.Proc(pid), job)
  {
  }

  lemma BinaryRenameProgresses(crypto: Crypto, base: Dir, first: Dir, s: State, s': State, pid: Pid, job: Job)
    requires ProcOk(crypto, base, s.dir, pid, s.Proc(pid)) && Pending(s.Proc(pid)) == Some(job) && StoreStep(s, s', pid)
    requires s.Proc(pid).RenamingBinary? && HasProgressed(first, s.dir, pid, s.Proc(pid), job)
    requires forall file | file !in JobNames(job, pid) :: SameAt(first, s'.dir, file)
    ensures HasProgressed(first, s'.dir, pid, s'.Proc(pid), job)
  {
    TempNamesApart(job.stem, pid, job.stem, job.stem, pid);
  }

  lemma SignatureRenameProgresses(crypto: Crypto, base: Dir, first: Dir, s: State, s': State, pid: Pid, job: Job)
    requires ProcOk(crypto, base, s.dir, pid, s.Proc(pid)) && Pending(s.Proc(pid)) == Some(job) && StoreStep(s, s', pid)
    requires s.Proc(pid).RenamingSignature? && HasProgressed(first, s.dir, pid, s.Proc(pid), job)
    requires forall file | file !in JobNames(job, pid) :: SameAt(first, s'.dir, file)
    ensures HasProgressed(first, s'.dir, pid, s'.Proc(pid), job)
  {
    TempNamesApart(job.stem, pid, job.stem, job.stem, pid);
  }

  /** Every step of the run is one of the same process, in the middle of its store. */
  ghost predicate IsUndisturbed(crypto: Crypto, states: seq<State>, pid: Pid) {
    forall i | 0 <= i < |states| - 1 ::
      Pending(states[i].Proc(pid)).Some? && Step(crypto, states[i], states[i + 1], pid)
  }

  lemma {:induction false} StoreProgresses(crypto: Crypto, states: seq<State>, pid: Pid, name: string, job: Job, i: nat)
    requires IsVerifiedJob(crypto, job) && i < |states| && states[0].Proc(pid) == Storing(name, job)
    requires IsUndisturbed(crypto, states, pid)
    ensures HasProgressed(states[0].dir, states[i].dir, pid, states[i].Proc(pid), job)
    ensures ProcOk(crypto, states[0].dir, states[i].dir, pid, states[i].Proc(pid))
    decreases i
  {
    if i > 0 {
      StoreProgresses(crypto, states, pid, name, job, i - 1);
      var first, s, s' := states[0].dir, states[i - 1], states[i];
      if StoreStep(s, s', pid) {
        StoreStepProgresses(crypto, first, first, s, s', pid, job);
        StoreStepKeepsOwn(crypto, first, s, s', pid);
      }
    }
  }

  /**
  A store that runs undisturbed does what the sequential operation promises: when it comes
  to its end, and also when it fails or is cut short anywhere on the way.
  */
  lemma UndisturbedStoreIsStore(crypto: Crypto, states: seq<State>, pid: Pid, name: string, job: Job)
      returns (reached: Reached)
    requires IsVerifiedJob(crypto, job) && states != [] && states[0].Proc(pid) == Storing(name, job)
    ensures var last := states[|states| - 1];
            IsUndisturbed(crypto, states, pid) ==>
              && (reached.Both? <==> last.Proc(pid).Listing?)
              && IsStore(states[0].dir, last.dir, job, pid, Modified(last.dir, job.stem), reached)
  {
    if IsUndisturbed(crypto, states, pid) {
      StoreProgresses(crypto, states, pid, name, job, |states| - 1);
    }
    var last := states[|states| - 1];
    reached := if last.Proc(pid).Listing? then Both
               else if IsStoreSoFar(states[0].dir, last.dir, job, pid, BinaryOnly) then BinaryOnly
               else Neither;
  }
}
