/**
One process left alone in the shared directory: its steps can do what the resolver promises,
and whatever they return has been found or stored
(cli/launcher/src/launch/outbound/resolve/mod.rs, cli/launcher/src/launch/outbound/resolve/cache.rs).
*/
module SoloResolve {
  import opened Wrappers
  import opened Verifier
  import opened CacheNames
  import opened CacheDirectory
  import opened CacheRetention
  import opened Decimals
  import opened Resolver
  import opened CacheProtocol

  // ---- Runs of one process ----

  ghost predicate IsSoloRun(crypto: Crypto, states: seq<State>, pid: Pid) {
    states != [] && forall i | 0 <= i < |states| - 1 :: Step(crypto, states[i], states[i + 1], pid)
  }

  ghost predicate Connects(crypto: Crypto, states: seq<State>, pid: Pid, s: State, t: State) {
    IsSoloRun(crypto, states, pid) && states[0] == s && states[|states| - 1] == t
  }

  /** The process can get from one state to the other with no other process taking a step. */
  ghost predicate Reaches(crypto: Crypto, pid: Pid, s: State, t: State) {
    exists states :: Connects(crypto, states, pid, s, t)
  }

  lemma Stays(crypto: Crypto, pid: Pid, s: State)
    ensures Reaches(crypto, pid, s, s)
  {
    assert Connects(crypto, [s], pid, s, s);
  }

  lemma Steps(crypto: Crypto, pid: Pid, s: State, t: State)
    requires Step(crypto, s, t, pid)
    ensures Reaches(crypto, pid, s, t)
  {
    assert Connects(crypto, [s, t], pid, s, t);
  }

  lemma Continues(crypto: Crypto, pid: Pid, s: State, t: State, u: State)
    requires Reaches(crypto, pid, s, t) && Reaches(crypto, pid, t, u)
    ensures Reaches(crypto, pid, s, u)
  {
    var a :| Connects(crypto, a, pid, s, t);
    var b :| Connects(crypto, b, pid, t, u);
    var all := a + b[1..];
    forall i | 0 <= i < |all| - 1 ensures Step(crypto, all[i], all[i + 1], pid) {
      if i >= |a| - 1 {
        assert all[i] == b[i - |a| + 1] && all[i + 1] == b[i - |a| + 2];
      }
    }
    assert Connects(crypto, all, pid, s, u);
  }

  lemma ThenSteps(crypto: Crypto, pid: Pid, s: State, t: State, u: State)
    requires Reaches(crypto, pid, s, t) && Step(crypto, t, u, pid)
    ensures Reaches(crypto, pid, s, u)
  {
    Steps(crypto, pid, t, u);
    Continues(crypto, pid, s, t, u);
  }

  /** Only the process's last position counts. */
  lemma WithTwice(s: State, dir: Dir, pid: Pid, proc: Proc, dir': Dir, proc': Proc)
    ensures s.With(dir, pid, proc).With(dir', pid, proc') == s.With(dir', pid, proc')
  {
    assert s.procs[pid := proc][pid := proc'] == s.procs[pid := proc'];
  }

  /** From the first state with the process moved on, one step further. */
  lemma MovesOn(crypto: Crypto, pid: Pid, s: State, dir: Dir, proc: Proc, dir': Dir, proc': Proc)
    requires Reaches(crypto, pid, s, s.With(dir, pid, proc))
    requires Step(crypto, s.With(dir, pid, proc), s.With(dir, pid, proc).With(dir', pid, proc'), pid)
    ensures Reaches(crypto, pid, s, s.With(dir', pid, proc'))
  {
    WithTwice(s, dir, pid, proc, dir', proc');
    ThenSteps(crypto, pid, s, s.With(dir, pid, proc), s.With(dir', pid, proc'));
  }

  lemma Begins(crypto: Crypto, pid: Pid, s: State)
    requires pid in s.procs
    ensures s == s.With(s.dir, pid, s.Proc(pid)) && Reaches(crypto, pid, s, s.With(s.dir, pid, s.Proc(pid)))
  {
    assert s.procs == s.procs[pid := s.procs[pid]];
    Stays(crypto, pid, s);
  }

  // ---- Storing ----

  /** Where the process is and what the directory holds, the rest of the state being that of `s`. */
  ghost predicate Gets(crypto: Crypto, pid: Pid, s: State, dir: Dir, proc: Proc) {
    Reaches(crypto, pid, s, s.With(dir, pid, proc))
  }

  /** A failing call leaves the directory as it is by then. */
  lemma GivesUp(crypto: Crypto, pid: Pid, s: State, dir: Dir, proc: Proc)
    requires Gets(crypto, pid, s, dir, proc) && (proc.Fetching? || Pending(proc).Some?)
    ensures Gets(crypto, pid, s, dir, Failed)
  {
    MovesOn(crypto, pid, s, dir, proc, dir, Failed);
  }

  lemma OpensBinary(crypto: Crypto, pid: Pid, s: State, dir: Dir, name: string, job: Job, now: nat)
    requires Gets(crypto, pid, s, dir, Storing(name, job))
    ensures Gets(crypto, pid, s, WriteFile(dir, TempBinary(job.stem, pid), [], now), WritingBinary(name, job, 0))
  {
    var dir', proc' := WriteFile(dir, TempBinary(job.stem, pid), [], now), WritingBinary(name, job, 0);
    var t := s.With(dir, pid, Storing(name, job));
    assert Writes(t, t.With(dir', pid, proc'), pid, TempBinary(job.stem, pid), [], proc');
    MovesOn(crypto, pid, s, dir, Storing(name, job), dir', proc');
  }

  /** Any part of the content can have been written by the time the write goes no further. */
  lemma WritesBinary(crypto: Crypto, pid: Pid, s: State, dir: Dir, name: string, job: Job, count: nat, now: nat)
    requires Gets(crypto, pid, s, dir, Storing(name, job)) && count <= |job.bytes|
    ensures Gets(crypto, pid, s, WriteFile(dir, TempBinary(job.stem, pid), job.bytes[..count], now),
                 WritingBinary(name, job, count))
  {
    OpensBinary(crypto, pid, s, dir, name, job, now);
    if job.bytes != [] {
      var temp := TempBinary(job.stem, pid);
      var dir0, proc0 := WriteFile(dir, temp, [], now), WritingBinary(name, job, 0);
      var dir', proc' := WriteFile(dir, temp, job.bytes[..count], now), WritingBinary(name, job, count);
      var t := s.With(dir0, pid, proc0);
      assert dir' == WriteFile(dir0, temp, job.bytes[..count], now);
      assert Writes(t, t.With(dir', pid, proc'), pid, temp, job.bytes[..count], proc');
      MovesOn(crypto, pid, s, dir0, proc0, dir', proc');
    } else {
      assert job.bytes[..count] == [];
    }
  }

  lemma MarksBinary(crypto: Crypto, pid: Pid, s: State, dir: Dir, name: string, job: Job)
    requires Gets(crypto, pid, s, dir, WritingBinary(name, job, |job.bytes|))
    ensures Gets(crypto, pid, s, dir, MarkingBinary(name, job))
    ensures Gets(crypto, pid, s, MarkExecutable(dir, TempBinary(job.stem, pid)), RenamingBinary(name, job))
  {
    MovesOn(crypto, pid, s, dir, WritingBinary(name, job, |job.bytes|), dir, MarkingBinary(name, job));
    MovesOn(crypto, pid, s, dir, MarkingBinary(name, job), MarkExecutable(dir, TempBinary(job.stem, pid)),
            RenamingBinary(name, job));
  }

  lemma RenamesBinary(crypto: Crypto, pid: Pid, s: State, dir: Dir, name: string, job: Job)
    requires Gets(crypto, pid, s, dir, RenamingBinary(name, job)) && TempBinary(job.stem, pid) in dir
    ensures Gets(crypto, pid, s, Rename(dir, TempBinary(job.stem, pid), job.stem), OpeningSignature(name, job))
    ensures Gets(crypto, pid, s, Remove(dir, TempBinary(job.stem, pid)), Failed)
  {
    MovesOn(crypto, pid, s, dir, RenamingBinary(name, job), Rename(dir, TempBinary(job.stem, pid), job.stem),
            OpeningSignature(name, job));
    MovesOn(crypto, pid, s, dir, RenamingBinary(name, job), Remove(dir, TempBinary(job.stem, pid)), Failed);
  }

  lemma OpensSignature(crypto: Crypto, pid: Pid, s: State, dir: Dir, name: string, job: Job, now: nat)
    requires Gets(crypto, pid, s, dir, OpeningSignature(name, job))
    ensures Gets(crypto, pid, s, WriteFile(dir, TempSignature(job.stem, pid), [], now), WritingSignature(name, job, 0))
  {
    var dir', proc' := WriteFile(dir, TempSignature(job.stem, pid), [], now), WritingSignature(name, job, 0);
    var t := s.With(dir, pid, OpeningSignature(name, job));
    assert Writes(t, t.With(dir', pid, proc'), pid, TempSignature(job.stem, pid), [], proc');
    MovesOn(crypto, pid, s, dir, OpeningSignature(name, job), dir', proc');
  }

  lemma WritesSignature(crypto: Crypto, pid: Pid, s: State, dir: Dir, name: string, job: Job, count: nat, now: nat)
    requires Gets(crypto, pid, s, dir, OpeningSignature(name, job)) && count <= |job.signature|
    ensures Gets(crypto, pid, s, WriteFile(dir, TempSignature(job.stem, pid), job.signature[..count], now),
                 WritingSignature(name, job, count))
  {
    OpensSignature(crypto, pid, s, dir, name, job, now);
    if job.signature != [] {
      var temp := TempSignature(job.stem, pid);
      var dir0, proc0 := WriteFile(dir, temp, [], now), WritingSignature(name, job, 0);
      var dir', proc' := WriteFile(dir, temp, job.signature[..count], now), WritingSignature(name, job, count);
      var t := s.With(dir0, pid, proc0);
      assert dir' == WriteFile(dir0, temp, job.signature[..count], now);
      assert Writes(t, t.With(dir', pid, proc'), pid, temp, job.signature[..count], proc');
      MovesOn(crypto, pid, s, dir0, proc0, dir', proc');
    } else {
      assert job.signature[..count] == [];
    }
  }

  lemma RenamesSignature(crypto: Crypto, pid: Pid, s: State, dir: Dir, name: string, job: Job)
    requires Gets(crypto, pid, s, dir, WritingSignature(name, job, |job.signature|))
    requires TempSignature(job.stem, pid) in dir
    ensures Gets(crypto, pid, s, dir, RenamingSignature(name, job))
    ensures Gets(crypto, pid, s, Rename(dir, TempSignature(job.stem, pid), SignatureName(job.stem)),
                 Listing(name, job.stem))
    ensures Gets(crypto, pid, s, Remove(dir, TempSignature(job.stem, pid)), Failed)
  {
    MovesOn(crypto, pid, s, dir, WritingSignature(name, job, |job.signature|), dir, RenamingSignature(name, job));
    MovesOn(crypto, pid, s, dir, RenamingSignature(name, job),
            Rename(dir, TempSignature(job.stem, pid), SignatureName(job.stem)), Listing(name, job.stem));
    MovesOn(crypto, pid, s, dir, RenamingSignature(name, job), Remove(dir, TempSignature(job.stem, pid)), Failed);
  }

  /** The binary's write, however it goes. */
  lemma PlacesBinary(crypto: Crypto, pid: Pid, s: State, dir: Dir, name: string, job: Job, now: nat,
                     fault: Option<Fault>)
    requires Gets(crypto, pid, s, dir, Storing(name, job))
    ensures Gets(crypto, pid, s, Written(dir, TempBinary(job.stem, pid), job.stem, job.bytes, true, now, fault),
                 if Fails(fault, true) then Failed else OpeningSignature(name, job))
  {
    var temp := TempBinary(job.stem, pid);
    var full := WriteFile(dir, temp, job.bytes, now);
    if fault == Some(NotStarted) {
      GivesUp(crypto, pid, s, dir, Storing(name, job));
    } else if fault.Some? && fault.value.Partly? {
      var count := |FirstBytes(job.bytes, fault.value.written)|;
      assert job.bytes[..count] == FirstBytes(job.bytes, fault.value.written);
      WritesBinary(crypto, pid, s, dir, name, job, count, now);
      GivesUp(crypto, pid, s, WriteFile(dir, temp, job.bytes[..count], now), WritingBinary(name, job, count));
    } else {
      assert job.bytes[..|job.bytes|] == job.bytes;
      WritesBinary(crypto, pid, s, dir, name, job, |job.bytes|, now);
      MarksBinary(crypto, pid, s, full, name, job);
      if fault == Some(NotMarked) {
        GivesUp(crypto, pid, s, full, MarkingBinary(name, job));
      } else {
        RenamesBinary(crypto, pid, s, MarkExecutable(full, temp), name, job);
        GivesUp(crypto, pid, s, MarkExecutable(full, temp), RenamingBinary(name, job));
      }
    }
  }

  lemma PlacesSignature(crypto: Crypto, pid: Pid, s: State, dir: Dir, name: string, job: Job, now: nat,
                        fault: Option<Fault>)
    requires Gets(crypto, pid, s, dir, OpeningSignature(name, job))
    ensures Gets(crypto, pid, s,
                 Written(dir, TempSignature(job.stem, pid), SignatureName(job.stem), job.signature, false, now, fault),
                 if Fails(fault, false) then Failed else Listing(name, job.stem))
  {
    var temp := TempSignature(job.stem, pid);
    var full := WriteFile(dir, temp, job.signature, now);
    if fault == Some(NotStarted) {
      GivesUp(crypto, pid, s, dir, OpeningSignature(name, job));
    } else if fault.Some? && fault.value.Partly? {
      var count := |FirstBytes(job.signature, fault.value.written)|;
      assert job.signature[..count] == FirstBytes(job.signature, fault.value.written);
      WritesSignature(crypto, pid, s, dir, name, job, count, now);
      GivesUp(crypto, pid, s, WriteFile(dir, temp, job.signature[..count], now), WritingSignature(name, job, count));
    } else {
      assert job.signature[..|job.signature|] == job.signature;
      WritesSignature(crypto, pid, s, dir, name, job, |job.signature|, now);
      RenamesSignature(crypto, pid, s, full, name, job);
      GivesUp(crypto, pid, s, full, RenamingSignature(name, job));
    }
  }

  lemma Stores(crypto: Crypto, pid: Pid, s: State, dir: Dir, name: string, job: Job, now: nat,
               binaryFault: Option<Fault>, signatureFault: Option<Fault>)
    requires Gets(crypto, pid, s, dir, Storing(name, job))
    ensures Gets(crypto, pid, s, Stored(dir, job, pid, now, binaryFault, signatureFault),
                 if ReachOf(binaryFault, signatureFault).Both? then Listing(name, job.stem) else Failed)
  {
    PlacesBinary(crypto, pid, s, dir, name, job, now, binaryFault);
    if !Fails(binaryFault, true) {
      var placed := Written(dir, TempBinary(job.stem, pid), job.stem, job.bytes, true, now, binaryFault);
      PlacesSignature(crypto, pid, s, placed, name, job, now, signatureFault);
    }
  }

  // ---- Removing ----

  /** A removal that succeeds or fails as `stays` says is one of the machine's. */
  lemma RemovalIsDrop(s: State, dir: Dir, pid: Pid, proc: Proc, file: string, stays: set<string>, proc': Proc)
    ensures var t := s.With(dir, pid, proc);
            Drops(t, t.With(TryRemove(dir, file, stays), pid, proc'), pid, file, proc')
  {
    var t := s.With(dir, pid, proc);
    assert t.Become(pid, proc') == t.With(dir, pid, proc');
  }

  lemma TwoRemovals(dir: Dir, stem: string, stays: set<string>)
    ensures TryRemove(TryRemove(dir, stem, stays), SignatureName(stem), stays) == Evicted(dir, stem, stays)
  {
  }

  lemma Evicts(crypto: Crypto, pid: Pid, s: State, dir: Dir, name: string, version: string, stem: string,
               stays: set<string>)
    requires Gets(crypto, pid, s, dir, Evicting(name, version, stem))
    ensures Gets(crypto, pid, s, Evicted(dir, stem, stays), Fetching(name, version))
  {
    var begun, half, done := Evicting(name, version, stem), EvictingSignature(name, version, stem),
      Fetching(name, version);
    var once := TryRemove(dir, stem, stays);
    RemovalIsDrop(s, dir, pid, begun, stem, stays, half);
    MovesOn(crypto, pid, s, dir, begun, once, half);
    RemovalIsDrop(s, once, pid, half, SignatureName(stem), stays, done);
    MovesOn(crypto, pid, s, once, half, TryRemove(once, SignatureName(stem), stays), done);
    TwoRemovals(dir, stem, stays);
  }

  lemma RemovesVictim(crypto: Crypto, pid: Pid, s: State, dir: Dir, stem: string, victims: seq<string>,
                      stays: set<string>)
    requires Gets(crypto, pid, s, dir, Retaining(stem, victims, false)) && victims != []
    ensures Gets(crypto, pid, s, Evicted(dir, victims[0], stays), Retaining(stem, victims[1..], false))
  {
    var begun, half, done := Retaining(stem, victims, false), Retaining(stem, victims, true),
      Retaining(stem, victims[1..], false);
    var once := TryRemove(dir, victims[0], stays);
    RemovalIsDrop(s, dir, pid, begun, victims[0], stays, half);
    MovesOn(crypto, pid, s, dir, begun, once, half);
    RemovalIsDrop(s, once, pid, half, SignatureName(victims[0]), stays, done);
    MovesOn(crypto, pid, s, once, half, TryRemove(once, SignatureName(victims[0]), stays), done);
    TwoRemovals(dir, victims[0], stays);
  }

  lemma {:induction false} Retains(crypto: Crypto, pid: Pid, s: State, dir: Dir, stem: string, victims: seq<string>,
                                   stays: set<string>)
    requires Gets(crypto, pid, s, dir, Retaining(stem, victims, false))
    ensures Gets(crypto, pid, s, RemoveEntries(dir, victims, stays), Returned(stem))
    decreases |victims|
  {
    if victims == [] {
      MovesOn(crypto, pid, s, dir, Retaining(stem, victims, false), dir, Returned(stem));
    } else {
      RemovesVictim(crypto, pid, s, dir, stem, victims, stays);
      Retains(crypto, pid, s, Evicted(dir, victims[0], stays), stem, victims[1..], stays);
    }
  }

  lemma CapsAndReturns(crypto: Crypto, pid: Pid, s: State, dir: Dir, name: string, stem: string, victims: seq<string>,
                       stays: set<string>)
    requires Gets(crypto, pid, s, dir, Listing(name, stem)) && forall v | v in victims :: IsRetained(v, name)
    ensures Gets(crypto, pid, s, RemoveEntries(dir, victims, stays), Returned(stem))
  {
    var t, proc' := s.With(dir, pid, Listing(name, stem)), Retaining(stem, victims, false);
    assert Chooses(t, t.With(dir, pid, proc'), pid, victims);
    MovesOn(crypto, pid, s, dir, Listing(name, stem), dir, proc');
    Retains(crypto, pid, s, dir, stem, victims, stays);
  }

  // ---- Finding and verifying ----

  lemma Finds(crypto: Crypto, pid: Pid, s: State, dir: Dir, name: string, version: string, stem: string)
    requires Gets(crypto, pid, s, dir, Scanning(name, version)) && IsVisible(dir, name, version, stem)
    ensures Gets(crypto, pid, s, dir, Loaded(name, version, stem, dir[stem].bytes))
  {
    var t, seen := s.With(dir, pid, Scanning(name, version)), Seen(name, version, stem);
    assert Sees(t, t.With(dir, pid, seen), pid, stem);
    MovesOn(crypto, pid, s, dir, Scanning(name, version), dir, seen);
    MovesOn(crypto, pid, s, dir, seen, dir, Hit(name, version, stem));
    MovesOn(crypto, pid, s, dir, Hit(name, version, stem), dir, Loaded(name, version, stem, dir[stem].bytes));
  }

  lemma Reverifies(crypto: Crypto, pid: Pid, s: State, dir: Dir, name: string, version: string, stem: string)
    requires Gets(crypto, pid, s, dir, Scanning(name, version)) && IsVisible(dir, name, version, stem)
    ensures Gets(crypto, pid, s, dir, if IsVerified(crypto, dir, stem) then Returned(stem)
                                      else Evicting(name, version, stem))
  {
    Finds(crypto, pid, s, dir, name, version, stem);
    MovesOn(crypto, pid, s, dir, Loaded(name, version, stem, dir[stem].bytes), dir,
            if IsVerified(crypto, dir, stem) then Returned(stem) else Evicting(name, version, stem));
  }

  lemma Fetches(config: Config, pid: Pid, s: State, dir: Dir, name: string, fetch: Fetch)
    requires Gets(config.crypto, pid, s, dir, Fetching(name, config.version))
    ensures if CheckFetch(config, fetch).Pass?
            then Gets(config.crypto, pid, s, dir, Storing(name, JobOf(config, name, fetch)))
            else Gets(config.crypto, pid, s, dir, Failed)
  {
    var proc := Fetching(name, config.version);
    if CheckFetch(config, fetch).Pass? {
      var job, t := JobOf(config, name, fetch), s.With(dir, pid, proc);
      assert job.stem == Stem(name, config.version, fetch.sha);
      assert Accepts(config.crypto, t, t.With(dir, pid, Storing(name, job)), pid, job);
      MovesOn(config.crypto, pid, s, dir, proc, dir, Storing(name, job));
    } else {
      GivesUp(config.crypto, pid, s, dir, proc);
    }
  }

  // ---- The resolver's answer, step by step ----

  /** Where a process ends that is given this answer. */
  function EndOf(result: Result<string, ResolveError>): Proc {
    match result case Success(stem) => Returned(stem) case Failure(_) => Failed
  }

  lemma FetchesAndStores(config: Config, s: State, name: string, world: World, dir: Dir, event: Event, dir': Dir)
    requires Gets(config.crypto, world.pid, s, dir, Fetching(name, config.version))
    requires IsFetchAndStore(config, name, world, dir, event, dir')
    requires IsExactStore(config, name, world, dir, event.stored)
    ensures Gets(config.crypto, world.pid, s, dir', EndOf(event.result))
  {
    Fetches(config, world.pid, s, dir, name, world.fetch);
    if CheckFetch(config, world.fetch).Pass? {
      var job := JobOf(config, name, world.fetch);
      Stores(config.crypto, world.pid, s, dir, name, job, world.now, world.binaryFault, world.signatureFault);
      if event.result.Success? {
        var victims := ChosenBy(config, name, event);
        VictimsAreRetained(event.stored, event.listing, name, config.retained);
        CapsAndReturns(config.crypto, world.pid, s, event.stored, name, job.stem, victims, world.stays);
      }
    }
  }

  lemma VictimsAreRetained(dir: Dir, listing: seq<string>, name: string, cap: nat)
    ensures forall v | v in Victims(dir, listing, name, cap) :: IsRetained(v, name)
  {
    var all := Retained(listing, name);
    RetainedFacts(listing, name);
    SortFacts(dir, all);
  }

  /**
  Every resolve the resolver can perform, in every world, is a run of the process's steps alone:
  from the scan to the answer, with the directory the resolver leaves.
  */
  lemma ResolveIsSoloRun(config: Config, s: State, name: string, world: World, event: Event, dir': Dir)
    requires s.Proc(world.pid) == Scanning(name, config.version)
    requires IsExactResolve(config, name, world, s.dir, event, dir')
    ensures Reaches(config.crypto, world.pid, s, s.With(dir', world.pid, EndOf(event.result)))
  {
    var crypto, pid, dir := config.crypto, world.pid, s.dir;
    Begins(crypto, pid, s);
    if event.hit.Some? {
      var stem := event.hit.value;
      Reverifies(crypto, pid, s, dir, name, config.version, stem);
      if IsBadHit(config, dir, event) {
        Evicts(crypto, pid, s, dir, name, config.version, stem, world.stays);
      }
    } else {
      MovesOn(crypto, pid, s, dir, Scanning(name, config.version), dir, Fetching(name, config.version));
    }
    if !IsGoodHit(config, dir, event) {
      FetchesAndStores(config, s, name, world, Remaining(config, world, dir, event), event, dir');
    }
  }

  /** Every moment can be a process's last; it can begin again with any name then, and after any answer. */
  lemma CrashesAndBegins(crypto: Crypto, s: State, pid: Pid, name: string, version: string)
    ensures Step(crypto, s, s.Become(pid, Idle), pid)
    ensures !IsBusy(s.Proc(pid)) ==> Step(crypto, s, s.Become(pid, Scanning(name, version)), pid)
    ensures Reaches(crypto, pid, s, s.With(s.dir, pid, Scanning(name, version)))
  {
    var idle := s.Become(pid, Idle);
    Steps(crypto, pid, s, idle);
    assert idle == s.With(s.dir, pid, Idle);
    MovesOn(crypto, pid, s, s.dir, Idle, s.dir, Scanning(name, version));
  }

  /** A crash in the middle of the binary's write leaves any part of it behind under the temporary name. */
  lemma CrashLeavesAnyPart(crypto: Crypto, pid: Pid, s: State, name: string, job: Job, count: nat, now: nat)
    requires s.Proc(pid) == Storing(name, job) && count <= |job.bytes|
    ensures Reaches(crypto, pid, s,
                    s.With(WriteFile(s.dir, TempBinary(job.stem, pid), job.bytes[..count], now), pid, Idle))
  {
    Begins(crypto, pid, s);
    WritesBinary(crypto, pid, s, s.dir, name, job, count, now);
    var dir := WriteFile(s.dir, TempBinary(job.stem, pid), job.bytes[..count], now);
    MovesOn(crypto, pid, s, dir, WritingBinary(name, job, count), dir, Idle);
  }

  // ---- What a run of one process can return ----

  /** In the middle of a resolve: neither at its end nor crashed. */
  predicate IsBusy(proc: Proc) {
    !proc.Idle? && !proc.Returned? && !proc.Failed?
  }

  predicate IsBadEntry(crypto: Crypto, dir: Dir, name: string, version: string, stem: string) {
    IsVisible(dir, name, version, stem) && !IsVerified(crypto, dir, stem)
  }

  /** Without some of the files of a visible entry that failed its checks. */
  predicate IsClearedOf(crypto: Crypto, first: Dir, dir: Dir, name: string, version: string, stem: string,
                        gone: set<string>)
  {
    IsBadEntry(crypto, first, name, version, stem) && gone <= {stem, SignatureName(stem)} && dir == first - gone
  }

  /** The directory as it was, or without files of one bad entry. */
  ghost predicate IsCleared(crypto: Crypto, first: Dir, dir: Dir, name: string, version: string) {
    dir == first || exists stem: string, gone: set<string> :: IsClearedOf(crypto, first, dir, name, version, stem, gone)
  }

  /** Fetched bytes that pass both checks against the checksum in the name they are stored under. */
  predicate IsFetched(crypto: Crypto, job: Job, name: string, version: string) {
    && EntrySha(job.stem, name, version).Some? && IsStem(job.stem)
    && VerifyBinary(crypto, job.bytes, ShaOf(job.stem), job.signature).Pass?
  }

  /** The directory a process began to store in, what it stored, and the directory when it was done. */
  datatype Trace = Trace(base: Dir, job: Job, stored: Dir)

  ghost predicate IsBase(crypto: Crypto, first: Dir, name: string, version: string, trace: Trace) {
    IsCleared(crypto, first, trace.base, name, version) && IsFetched(crypto, trace.job, name, version)
  }

  ghost predicate HasStored(crypto: Crypto, first: Dir, pid: Pid, name: string, version: string, trace: Trace) {
    IsBase(crypto, first, name, version, trace) && IsStoreSoFar(trace.base, trace.stored, trace.job, pid, Both)
  }

  /** Looking, re-verifying or evicting. */
  ghost predicate IsLooking(crypto: Crypto, first: Dir, dir: Dir, proc: Proc, name: string, version: string) {
    match proc
    case Scanning(n, v) => dir == first && n == name && v == version
    case Seen(n, v, stem) =>
      dir == first && n == name && v == version && stem in dir && EntrySha(stem, name, version).Some?
    case Hit(n, v, stem) => dir == first && n == name && v == version && IsVisible(dir, name, version, stem)
    case Loaded(n, v, stem, bytes) =>
      dir == first && n == name && v == version && IsVisible(dir, name, version, stem) && bytes == dir[stem].bytes
    case Evicting(n, v, stem) =>
      dir == first && n == name && v == version && IsBadEntry(crypto, first, name, version, stem)
    case EvictingSignature(n, v, stem) =>
      && (dir == first || dir == first - {stem})
      && n == name && v == version && IsBadEntry(crypto, first, name, version, stem)
    case Fetching(n, v) => n == name && v == version && IsCleared(crypto, first, dir, name, version)
    case Returned(stem) => dir == first && IsVisible(first, name, version, stem) && IsVerified(crypto, first, stem)
    case _ => false
  }

  /** In the middle of the store. */
  ghost predicate IsStoring(crypto: Crypto, first: Dir, dir: Dir, pid: Pid, proc: Proc, name: string, version: string,
                            trace: Trace)
  {
    && Pending(proc) == Some(trace.job) && IsBase(crypto, first, name, version, trace) && IsNamed(proc, name)
    && HasProgressed(trace.base, dir, pid, proc, trace.job) && ProcOk(crypto, trace.base, dir, pid, proc)
  }

  predicate IsNamed(proc: Proc, name: string) {
    (Pending(proc).Some? && proc.name == name) || (proc.Listing? && proc.name == name)
  }

  /** Behind the store: choosing what to remove, removing it, done. */
  ghost predicate IsRetaining(crypto: Crypto, first: Dir, dir: Dir, pid: Pid, proc: Proc, name: string, version: string,
                              trace: Trace)
  {
    && HasStored(crypto, first, pid, name, version, trace) && OnlyEntriesWent(trace.stored, dir, name)
    && IsFinishing(proc, name, trace.job.stem)
  }

  predicate IsFinishing(proc: Proc, name: string, stem: string) {
    match proc
    case Listing(n, own) => n == name && own == stem
    case Retaining(own, victims, _) => own == stem && forall v | v in victims :: IsRetained(v, name)
    case Returned(own) => own == stem
    case _ => false
  }

  /** Where a process stands in a resolve that it runs alone, and what it has done to the directory. */
  ghost predicate Follows(crypto: Crypto, first: Dir, s: State, pid: Pid, name: string, version: string, trace: Trace) {
    || s.Proc(pid) == Idle || s.Proc(pid) == Failed
    || IsLooking(crypto, first, s.dir, s.Proc(pid), name, version)
    || IsStoring(crypto, first, s.dir, pid, s.Proc(pid), name, version, trace)
    || IsRetaining(crypto, first, s.dir, pid, s.Proc(pid), name, version, trace)
  }

  lemma LookingFollows(crypto: Crypto, first: Dir, s: State, s': State, pid: Pid, name: string, version: string)
    requires IsLooking(crypto, first, s.dir, s.Proc(pid), name, version) && IsBusy(s.Proc(pid))
    requires !s.Proc(pid).Fetching? && ResolveStep(crypto, s, s', pid)
    ensures IsLooking(crypto, first, s'.dir, s'.Proc(pid), name, version)
  {
    var proc := s.Proc(pid);
    if proc.Scanning? {
      if s'.Proc(pid).Fetching? {
        assert IsCleared(crypto, first, s'.dir, name, version);
      }
    } else if proc.Loaded? {
      VisibleIsStem(first, name, version, proc.stem);
    } else if proc.EvictingSignature? {
      ClearedBoth(crypto, first, s.dir, s'.dir, name, version, proc.stem);
    }
  }

  lemma ClearedBoth(crypto: Crypto, first: Dir, dir: Dir, dir': Dir, name: string, version: string, stem: string)
    requires IsBadEntry(crypto, first, name, version, stem) && (dir == first || dir == first - {stem})
    requires dir' == dir || dir' == Remove(dir, SignatureName(stem))
    ensures IsCleared(crypto, first, dir', name, version)
  {
    var gone := {stem, SignatureName(stem)} - dir'.Keys;
    assert dir' == first - gone;
    assert IsClearedOf(crypto, first, dir', name, version, stem, gone);
  }

  lemma FetchingFollows(crypto: Crypto, first: Dir, s: State, s': State, pid: Pid, name: string, version: string)
      returns (trace: Trace)
    requires IsCollisionFree(crypto) && s.Proc(pid) == Fetching(name, version)
    requires IsCleared(crypto, first, s.dir, name, version) && ResolveStep(crypto, s, s', pid)
    ensures IsStoring(crypto, first, s'.dir, pid, s'.Proc(pid), name, version, trace)
  {
    var job :| Accepts(crypto, s, s', pid, job);
    AcceptedIsVerified(crypto, s, s', pid, job);
    var sha :| job.stem == Stem(name, version, sha) && VerifyBinary(crypto, job.bytes, sha, job.signature).Pass?;
    HexDigestFacts(crypto, job.bytes, job.bytes);
    EntryIff(job.stem, name, version, sha);
    trace := Trace(s.dir, job, s.dir);
  }

  lemma StoringFollows(crypto: Crypto, first: Dir, s: State, s': State, pid: Pid, name: string, version: string,
                       trace: Trace) returns (trace': Trace)
    requires IsStoring(crypto, first, s.dir, pid, s.Proc(pid), name, version, trace) && StoreStep(s, s', pid)
    ensures Follows(crypto, first, s', pid, name, version, trace')
  {
    var job := trace.job;
    StoreStepProgresses(crypto, trace.base, trace.base, s, s', pid, job);
    StoreStepKeepsOwn(crypto, trace.base, s, s', pid);
    StoreStepLeads(s, s', pid, name, job);
    trace' := if s'.Proc(pid).Listing? then trace.(stored := s'.dir) else trace;
  }

  lemma StoreStepLeads(s: State, s': State, pid: Pid, name: string, job: Job)
    requires Pending(s.Proc(pid)) == Some(job) && IsNamed(s.Proc(pid), name) && StoreStep(s, s', pid)
    ensures || s'.Proc(pid) == Failed || s'.Proc(pid) == Listing(name, job.stem)
            || (Pending(s'.Proc(pid)) == Some(job) && IsNamed(s'.Proc(pid), name))
  {
  }

  lemma RetainingFollows(crypto: Crypto, first: Dir, s: State, s': State, pid: Pid, name: string, version: string,
                         trace: Trace)
    requires IsBusy(s.Proc(pid)) && ResolveStep(crypto, s, s', pid)
    ensures IsRetaining(crypto, first, s.dir, pid, s.Proc(pid), name, version, trace) ==>
              IsRetaining(crypto, first, s'.dir, pid, s'.Proc(pid), name, version, trace)
  {
    if IsRetaining(crypto, first, s.dir, pid, s.Proc(pid), name, version, trace) {
      FinishingFollows(crypto, s, s', pid, name, trace.job.stem);
      WentFurther(trace.stored, s.dir, s'.dir, name);
    }
  }

  lemma FinishingFollows(crypto: Crypto, s: State, s': State, pid: Pid, name: string, stem: string)
    requires IsFinishing(s.Proc(pid), name, stem) && IsBusy(s.Proc(pid)) && ResolveStep(crypto, s, s', pid)
    ensures IsFinishing(s'.Proc(pid), name, stem) && OnlyEntriesWent(s.dir, s'.dir, name)
  {
    var proc := s.Proc(pid);
    if proc.Retaining? && proc.victims != [] {
      assert IsOfName(proc.victims[0], name) && IsOfName(SignatureName(proc.victims[0]), name);
    }
  }

  lemma WentFurther(a: Dir, b: Dir, c: Dir, name: string)
    requires OnlyEntriesWent(a, b, name) && OnlyEntriesWent(b, c, name)
    ensures OnlyEntriesWent(a, c, name)
  {
  }

  lemma StepFollows(crypto: Crypto, first: Dir, s: State, s': State, pid: Pid, name: string, version: string,
                    trace: Trace) returns (trace': Trace)
    requires IsCollisionFree(crypto) && Follows(crypto, first, s, pid, name, version, trace)
    requires IsBusy(s.Proc(pid)) && Step(crypto, s, s', pid)
    ensures Follows(crypto, first, s', pid, name, version, trace')
  {
    trace' := trace;
    if s' == s.Become(pid, Idle) || s' == s.Become(pid, Failed) {
      assert s'.Proc(pid).Idle? || s'.Proc(pid).Failed?;
    } else if Pending(s.Proc(pid)).Some? {
      trace' := StoringFollows(crypto, first, s, s', pid, name, version, trace);
    } else if IsRetaining(crypto, first, s.dir, pid, s.Proc(pid), name, version, trace) {
      RetainingFollows(crypto, first, s, s', pid, name, version, trace);
    } else if s.Proc(pid).Fetching? {
      trace' := FetchingFollows(crypto, first, s, s', pid, name, version);
    } else {
      LookingFollows(crypto, first, s, s', pid, name, version);
    }
  }

  lemma {:induction false} RunFollows(crypto: Crypto, states: seq<State>, pid: Pid, name: string, version: string,
                                      i: nat) returns (trace: Trace)
    requires IsCollisionFree(crypto) && IsSoloRun(crypto, states, pid) && i < |states|
    requires states[0].Proc(pid) == Scanning(name, version)
    requires forall k | 0 <= k < |states| - 1 :: IsBusy(states[k].Proc(pid))
    ensures Follows(crypto, states[0].dir, states[i], pid, name, version, trace)
    decreases i
  {
    if i == 0 {
      trace := Trace(states[0].dir, Job("", [], []), states[0].dir);
    } else {
      trace := RunFollows(crypto, states, pid, name, version, i - 1);
      trace := StepFollows(crypto, states[0].dir, states[i - 1], states[i], pid, name, version, trace);
    }
  }

  /**
  Whatever a process that runs alone returns: either a visible entry that passes both
  checks, and the directory is as it was; or what it has fetched, verified and stored, in
  the directory it found without at most one bad entry, and then removed nothing but the
  name's entries.
  */
  lemma SoloRunReturns(crypto: Crypto, states: seq<State>, pid: Pid, name: string, version: string, stem: string)
      returns (trace: Trace)
    requires IsCollisionFree(crypto) && IsSoloRun(crypto, states, pid)
    requires states[0].Proc(pid) == Scanning(name, version) && states[|states| - 1].Proc(pid) == Returned(stem)
    requires forall k | 0 <= k < |states| - 1 :: IsBusy(states[k].Proc(pid))
    ensures var first, last := states[0].dir, states[|states| - 1].dir;
            || (last == first && IsVisible(first, name, version, stem) && IsVerified(crypto, first, stem))
            || (&& IsCleared(crypto, first, trace.base, name, version)
                && IsFetched(crypto, trace.job, name, version) && trace.job.stem == stem
                && IsStoreSoFar(trace.base, trace.stored, trace.job, pid, Both)
                && OnlyEntriesWent(trace.stored, last, name))
  {
    trace := RunFollows(crypto, states, pid, name, version, |states| - 1);
  }
}
