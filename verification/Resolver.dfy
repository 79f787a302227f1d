/**
Resolving a command name to a cached binary: find, re-verify, evict, fetch, verify,
store, retain (cli/launcher/src/launch/outbound/resolve/mod.rs). One process at a time;
the network answers as it likes.
*/
module Resolver {
  import opened Wrappers
  import opened Verifier
  import opened CacheNames
  import opened CacheDirectory
  import opened Decimals
  import opened CacheRetention

  /**
  What the network yields for a name: no manifest or asset, or the manifest's checksum and
  signature and the asset's bytes.
  */
  datatype Fetch = Unavailable | AssetMissing | Fetched(sha: string, signature: Bytes, bytes: Bytes)

  datatype ResolveError = FetchFailed | AssetNotFound | Unverified(reason: VerifyError) | StoreFailed

  /** The launcher's version, the retention cap, and the trusted checks. */
  datatype Config = Config(crypto: Crypto, version: string, retained: nat)

  function JobOf(config: Config, name: string, fetch: Fetch): Job
    requires fetch.Fetched?
  {
    Job(Stem(name, config.version, fetch.sha), fetch.bytes, fetch.signature)
  }

  function CheckFetch(config: Config, fetch: Fetch): Outcome<ResolveError> {
    match fetch
    case Unavailable => Fail(FetchFailed)
    case AssetMissing => Fail(AssetNotFound)
    case Fetched(sha, signature, bytes) =>
      match VerifyBinary(config.crypto, bytes, sha, signature)
      case Fail(reason) => Fail(Unverified(reason))
      case Pass => Pass
  }

  /** How the network and the file system behave during one resolve; `stays` are the files that cannot be removed. */
  datatype World = World(
    fetch: Fetch, pid: Pid, now: nat, binaryFault: Option<Fault>, signatureFault: Option<Fault>, stays: set<string>)

  function Reach(world: World): Reached {
    ReachOf(world.binaryFault, world.signatureFault)
  }

  /** What one resolve did: the entry found, the directory after storing, its listing for retention, and the answer. */
  datatype Event = Event(hit: Option<string>, stored: Dir, listing: seq<string>, result: Result<string, ResolveError>)

  ghost predicate IsFetchAndStore(config: Config, name: string, world: World, dir: Dir, event: Event, dir': Dir) {
    match CheckFetch(config, world.fetch)
    case Fail(error) => dir' == dir && event.result == Failure(error)
    case Pass =>
      var job := JobOf(config, name, world.fetch);
      && IsStore(dir, event.stored, job, world.pid, world.now, Reach(world))
      && (event.result.Success? <==> Reach(world).Both?)
      && match event.result
         case Failure(error) => error == StoreFailed && dir' == event.stored
         case Success(stem) =>
           && stem == job.stem && Lists(event.listing, event.stored)
           && dir' == RemoveEntries(event.stored, ChosenBy(config, name, event), world.stays)
  }

  /** The entries retention chose to remove. */
  function ChosenBy(config: Config, name: string, event: Event): seq<string> {
    Victims(event.stored, event.listing, name, config.retained)
  }

  /** A bad hit: an entry was found and did not pass the checks. */
  predicate IsBadHit(config: Config, dir: Dir, event: Event) {
    event.hit.Some? && !IsVerified(config.crypto, dir, event.hit.value)
  }

  /** The directory a fetch starts from: without the bad hit, as far as it could be removed. */
  function Remaining(config: Config, world: World, dir: Dir, event: Event): Dir {
    if IsBadHit(config, dir, event) then Evicted(dir, event.hit.value, world.stays) else dir
  }

  predicate IsGoodHit(config: Config, dir: Dir, event: Event) {
    event.hit.Some? && IsVerified(config.crypto, dir, event.hit.value)
  }

  ghost predicate IsResolve(config: Config, name: string, world: World, dir: Dir, event: Event, dir': Dir) {
    && (match event.hit
        case None => forall file :: !IsVisible(dir, name, config.version, file)
        case Some(stem) => IsVisible(dir, name, config.version, stem))
    && if IsGoodHit(config, dir, event) then dir' == dir && event.result == Success(event.hit.value)
       else IsFetchAndStore(config, name, world, Remaining(config, world, dir, event), event, dir')
  }

  /** The store's result to the last temporary file, where `IsStore` leaves open what a failed one leaves in those. */
  predicate IsExactStore(config: Config, name: string, world: World, dir: Dir, stored: Dir) {
    CheckFetch(config, world.fetch).Pass? ==>
      stored == Stored(dir, JobOf(config, name, world.fetch), world.pid, world.now, world.binaryFault,
                       world.signatureFault)
  }

  ghost predicate IsExactResolve(config: Config, name: string, world: World, dir: Dir, event: Event, dir': Dir) {
    && IsResolve(config, name, world, dir, event, dir')
    && (IsGoodHit(config, dir, event)
        || IsExactStore(config, name, world, Remaining(config, world, dir, event), event.stored))
  }

  class FetchVerifyCacheResolver {
    const config: Config
    const cache: Cache

    constructor (config: Config, cache: Cache)
      ensures this.config == config && this.cache == cache
    {
      this.config := config;
      this.cache := cache;
    }

    method Reverify(cached: Cached) returns (ok: bool)
      requires IsStem(cached.stem) && cached.sha == ShaOf(cached.stem)
      ensures ok <==> IsVerified(config.crypto, cache.files, cached.stem)
    {
      if cached.stem !in cache.files || SignatureName(cached.stem) !in cache.files {
        return false;
      }
      var bytes := cache.files[cached.stem].bytes;
      var signature := cache.files[SignatureName(cached.stem)].bytes;
      var actual := Sha256Hex(config.crypto, bytes);
      ok := actual == cached.sha && config.crypto.verifies(bytes, signature);
    }

    method FetchVerifyStore(name: string, world: World, ghost hit: Option<string>)
        returns (r: Result<string, ResolveError>, ghost event: Event)
      requires IsCollisionFree(config.crypto)
      modifies cache
      ensures event.hit == hit && event.result == r
      ensures IsFetchAndStore(config, name, world, old(cache.files), event, cache.files)
      ensures IsExactStore(config, name, world, old(cache.files), event.stored)
    {
      event := Event(hit, cache.files, [], Failure(StoreFailed));
      var check := CheckFetch(config, world.fetch);
      if check.Fail? {
        r := Failure(check.error);
        event := event.(result := r);
        return;
      }
      var job := JobOf(config, name, world.fetch);
      HexDigestFacts(config.crypto, job.bytes, job.bytes);
      StemIsStem(name, config.version, world.fetch.sha);
      var stored := cache.Store(job, world.pid, world.now, world.binaryFault, world.signatureFault);
      event := event.(stored := cache.files);
      if !stored {
        r := Failure(StoreFailed);
        return;
      }
      ghost var listing := cache.EnforceRetentionCap(name, config.retained, world.stays);
      r := Success(job.stem);
      event := event.(listing := listing, result := r);
    }

    /** A hit that still verifies is returned as it is; a bad one is evicted and fetched again. */
    method Resolve(name: string, world: World) returns (r: Result<string, ResolveError>, ghost event: Event)
      requires IsCollisionFree(config.crypto)
      modifies cache
      ensures event.result == r && IsExactResolve(config, name, world, old(cache.files), event, cache.files)
    {
      var hit := cache.Find(name, config.version);
      if hit.Some? {
        VisibleIsStem(cache.files, name, config.version, hit.value.stem);
        var ok := Reverify(hit.value);
        if ok {
          r := Success(hit.value.stem);
          event := Event(Some(hit.value.stem), cache.files, [], r);
          return;
        }
        cache.Evict(hit.value, world.stays);
        r, event := FetchVerifyStore(name, world, Some(hit.value.stem));
      } else {
        r, event := FetchVerifyStore(name, world, None);
      }
    }
  }

  // ---- Soundness of what the operations leave ----

  ghost predicate IsVerifiedJob(crypto: Crypto, job: Job) {
    IsStem(job.stem) && VerifyBinary(crypto, job.bytes, ShaOf(job.stem), job.signature).Pass?
  }

  /** Verified bytes make a good binary, and their signature is good for the stem. */
  lemma VerifiedJobIsGood(crypto: Crypto, job: Job, binary: FileEntry)
    requires IsCollisionFree(crypto) && IsVerifiedJob(crypto, job)
    requires binary.bytes == job.bytes && binary.executable
    ensures IsGoodBinary(crypto, job.stem, binary) && IsGoodSignature(crypto, job.stem, job.signature)
  {
    forall bytes: Bytes | IsGoodContent(crypto, job.stem, bytes) ensures crypto.verifies(bytes, job.signature) {
      HexDigestFacts(crypto, bytes, job.bytes);
    }
  }

  /** Storing a verified job makes no stem unsound, wherever it stops. */
  lemma StoreKeepsSound(crypto: Crypto, dir: Dir, dir': Dir, job: Job, pid: Pid, now: nat, reached: Reached,
                        stem: string)
    requires IsCollisionFree(crypto) && IsVerifiedJob(crypto, job) && IsStore(dir, dir', job, pid, now, reached)
    requires IsStem(stem) && (IsSound(crypto, dir, stem) || (reached.Both? && stem == job.stem))
    ensures IsSound(crypto, dir', stem)
  {
    VerifiedJobIsGood(crypto, job, FileEntry(job.bytes, true, now));
    if stem != job.stem {
      StoreTouchesOne(dir, dir', job, pid, now, reached, stem);
    }
  }

  /** A store leaves every other stem's files as they were. */
  lemma StoreTouchesOne(dir: Dir, dir': Dir, job: Job, pid: Pid, now: nat, reached: Reached, stem: string)
    requires IsStem(stem) && IsStem(job.stem) && stem != job.stem && IsStore(dir, dir', job, pid, now, reached)
    ensures SameAt(dir, dir', stem) && SameAt(dir, dir', SignatureName(stem))
  {
    TempNamesApart(job.stem, pid, stem, job.stem, pid);
    SuffixInjective(stem, job.stem);
    SuffixIsNotStem(job.stem);
  }

  lemma RetentionKeepsSound(crypto: Crypto, dir: Dir, victims: seq<string>, stays: set<string>, stem: string)
    requires IsStem(stem) && IsSound(crypto, dir, stem)
    ensures IsSound(crypto, RemoveEntries(dir, victims, stays), stem)
  {
    RemoveEntriesIs(dir, victims, stays);
  }

  lemma FetchedJobIsVerified(config: Config, name: string, fetch: Fetch)
    requires IsCollisionFree(config.crypto) && CheckFetch(config, fetch).Pass?
    ensures IsVerifiedJob(config.crypto, JobOf(config, name, fetch))
    ensures IsSha256Hex(fetch.sha)
    ensures EntrySha(JobOf(config, name, fetch).stem, name, config.version) == Some(fetch.sha)
  {
    HexDigestFacts(config.crypto, fetch.bytes, fetch.bytes);
    StemIsStem(name, config.version, fetch.sha);
    EntryIff(JobOf(config, name, fetch).stem, name, config.version, fetch.sha);
  }

  lemma FetchAndStoreKeepsSound(config: Config, name: string, world: World, dir: Dir, event: Event, dir': Dir,
                                stem: string)
    requires IsCollisionFree(config.crypto) && IsFetchAndStore(config, name, world, dir, event, dir')
    requires IsStem(stem) && IsSound(config.crypto, dir, stem)
    ensures IsSound(config.crypto, dir', stem)
  {
    if CheckFetch(config, world.fetch).Pass? {
      var job := JobOf(config, name, world.fetch);
      FetchedJobIsVerified(config, name, world.fetch);
      StoreKeepsSound(config.crypto, dir, event.stored, job, world.pid, world.now, Reach(world), stem);
      if event.result.Success? {
        RetentionKeepsSound(config.crypto, event.stored, ChosenBy(config, name, event), world.stays, stem);
      }
    }
  }

  // ---- Self-healing ----

  /** The stems of files of this name and version, whether as binary or as signature. */
  ghost function Stems(dir: Dir, name: string, version: string): set<string> {
    (set file | file in dir && EntrySha(file, name, version).Some?)
    + (set file | file in dir && IsSignatureOf(file, name, version) :: StemOfSignature(file))
  }

  predicate IsSignatureOf(file: string, name: string, version: string) {
    |file| >= 8 && file == SignatureName(file[..|file| - 8]) && EntrySha(file[..|file| - 8], name, version).Some?
  }

  function StemOfSignature(file: string): string {
    if |file| >= 8 then file[..|file| - 8] else file
  }

  /** The stems of this name and version under which something bad lies. */
  ghost function Tainted(config: Config, dir: Dir, name: string): set<string> {
    set stem | stem in Stems(dir, name, config.version) && IsStem(stem) && !IsSound(config.crypto, dir, stem)
  }

  lemma EntryIsStem(file: string, name: string, version: string)
    requires EntrySha(file, name, version).Some?
    ensures IsStem(file)
  {
    EntryIff(file, name, version, EntrySha(file, name, version).value);
    StemIsStem(name, version, EntrySha(file, name, version).value);
  }

  /** A stem is tainted exactly when it is one of the name's and not sound; a visible entry that fails the checks is. */
  lemma TaintedIff(config: Config, dir: Dir, name: string, stem: string)
    ensures stem in Tainted(config, dir, name)
            <==> EntrySha(stem, name, config.version).Some? && IsStem(stem) && !IsSound(config.crypto, dir, stem)
  {
    var file := SignatureName(stem);
    assert file[..|file| - 8] == stem;
    if EntrySha(stem, name, config.version).Some? && IsStem(stem) && !IsSound(config.crypto, dir, stem) {
      if stem !in dir {
        assert file in dir && IsSignatureOf(file, name, config.version) && StemOfSignature(file) == stem;
      }
    }
  }

  /** Both files of the entry can be removed. */
  predicate IsRemovable(world: World, stem: string) {
    stem !in world.stays && SignatureName(stem) !in world.stays
  }

  /** No resolve taints a stem, and a bad hit that can be removed is clean afterwards. */
  lemma ResolveShrinksTaint(config: Config, name: string, world: World, dir: Dir, event: Event, dir': Dir)
    requires IsCollisionFree(config.crypto) && IsResolve(config, name, world, dir, event, dir')
    ensures Tainted(config, dir', name) <= Tainted(config, dir, name)
    ensures IsBadHit(config, dir, event) && IsRemovable(world, event.hit.value) ==>
              event.hit.value in Tainted(config, dir, name) && event.hit.value !in Tainted(config, dir', name)
  {
    if !IsGoodHit(config, dir, event) {
      var remaining := Remaining(config, world, dir, event);
      forall stem | stem in Tainted(config, dir', name) ensures stem in Tainted(config, dir, name) {
        TaintedIff(config, dir', name, stem);
        TaintedIff(config, dir, name, stem);
        if IsSound(config.crypto, dir, stem) {
          assert IsSound(config.crypto, remaining, stem);
          FetchAndStoreKeepsSound(config, name, world, remaining, event, dir', stem);
        }
      }
      if IsBadHit(config, dir, event) && IsRemovable(world, event.hit.value) {
        BadHitIsCleaned(config, name, world, dir, event, dir');
      }
    }
  }

  lemma BadHitIsCleaned(config: Config, name: string, world: World, dir: Dir, event: Event, dir': Dir)
    requires IsCollisionFree(config.crypto) && IsResolve(config, name, world, dir, event, dir')
    requires IsBadHit(config, dir, event) && IsRemovable(world, event.hit.value)
    ensures event.hit.value in Tainted(config, dir, name) && event.hit.value !in Tainted(config, dir', name)
  {
    var hit := event.hit.value;
    VisibleIsStem(dir, name, config.version, hit);
    TaintedIff(config, dir, name, hit);
    TaintedIff(config, dir', name, hit);
    if IsSound(config.crypto, dir, hit) {
      SoundIsVerified(config.crypto, dir, name, config.version, hit);
    }
    FetchAndStoreKeepsSound(config, name, world, Remaining(config, world, dir, event), event, dir', hit);
  }

  // ---- Visible entries that fail verification ----

  /** The entries of the name that `find` can return and that do not pass the checks. */
  function VisibleBad(config: Config, dir: Dir, name: string): set<string> {
    set stem | stem in dir && IsVisible(dir, name, config.version, stem) && !IsVerified(config.crypto, dir, stem)
  }

  /** The store failed after placing the binary, over a signature already there that does not verify it. */
  predicate LeavesStale(config: Config, name: string, world: World, dir: Dir, event: Event) {
    !IsGoodHit(config, dir, event) && CheckFetch(config, world.fetch).Pass? && Reach(world).BinaryOnly?
    && (var job, remaining := JobOf(config, name, world.fetch), Remaining(config, world, dir, event);
        && SignatureName(job.stem) in remaining
        && !config.crypto.verifies(job.bytes, remaining[SignatureName(job.stem)].bytes))
  }

  lemma RemovalKeepsVisibleBad(config: Config, dir: Dir, gone: set<string>, name: string)
    ensures VisibleBad(config, dir - gone, name) <= VisibleBad(config, dir, name)
  {
  }

  lemma StoreVisibleBad(config: Config, name: string, world: World, dir: Dir, stored: Dir)
    requires IsCollisionFree(config.crypto) && CheckFetch(config, world.fetch).Pass?
    requires IsStore(dir, stored, JobOf(config, name, world.fetch), world.pid, world.now, Reach(world))
    ensures var job := JobOf(config, name, world.fetch);
            && (forall stem | stem in VisibleBad(config, stored, name) && stem != job.stem ::
                stem in VisibleBad(config, dir, name))
            && (job.stem in VisibleBad(config, stored, name) <==>
                  match Reach(world)
                  case Neither => job.stem in VisibleBad(config, dir, name)
                  case BinaryOnly =>
                    && SignatureName(job.stem) in dir
                    && !config.crypto.verifies(job.bytes, dir[SignatureName(job.stem)].bytes)
                  case Both => false)
  {
    var job := JobOf(config, name, world.fetch);
    FetchedJobIsVerified(config, name, world.fetch);
    forall stem | stem in VisibleBad(config, stored, name) && stem != job.stem
      ensures stem in VisibleBad(config, dir, name)
    {
      EntryIsStem(stem, name, config.version);
      StoreTouchesOne(dir, stored, job, world.pid, world.now, Reach(world), stem);
    }
  }

  /** From the directory a fetch starts from to the one it leaves. */
  lemma FetchVisibleBad(config: Config, name: string, world: World, dir: Dir, event: Event, dir': Dir)
    requires IsCollisionFree(config.crypto) && IsFetchAndStore(config, name, world, dir, event, dir')
    requires CheckFetch(config, world.fetch).Pass?
    ensures VisibleBad(config, dir', name) <= VisibleBad(config, event.stored, name)
    ensures Reach(world).BinaryOnly? ==> dir' == event.stored
  {
    if event.result.Success? {
      var chosen := ChosenBy(config, name, event);
      RemoveEntriesIs(event.stored, chosen, world.stays);
      var gone := Elements(chosen) + SignaturesOf(Elements(chosen)) - world.stays;
      RemovalKeepsVisibleBad(config, event.stored, gone, name);
    }
  }

  /**
  What a resolve does to the visible entries that fail verification: it adds none but a
  binary it left over a stale signature, and a bad hit that can be removed is gone.
  */
  lemma ResolveVisibleBad(config: Config, name: string, world: World, dir: Dir, event: Event, dir': Dir)
    requires IsCollisionFree(config.crypto) && IsResolve(config, name, world, dir, event, dir')
    ensures var before, after := VisibleBad(config, dir, name), VisibleBad(config, dir', name);
            && (if LeavesStale(config, name, world, dir, event)
                then
                  var stem := JobOf(config, name, world.fetch).stem;
                  stem in after && after <= before + {stem}
                else after <= before)
            && (IsBadHit(config, dir, event) ==> event.hit.value in before)
            && (IsBadHit(config, dir, event) && IsRemovable(world, event.hit.value) ==> event.hit.value !in after)
  {
    if !IsGoodHit(config, dir, event) {
      var remaining := Remaining(config, world, dir, event);
      if IsBadHit(config, dir, event) {
        var hit := event.hit.value;
        RemovalKeepsVisibleBad(config, dir, {hit, SignatureName(hit)} - world.stays, name);
        assert IsRemovable(world, hit) ==> hit !in remaining && SignatureName(hit) !in remaining;
      }
      if CheckFetch(config, world.fetch).Pass? {
        StoreVisibleBad(config, name, world, remaining, event.stored);
        FetchVisibleBad(config, name, world, remaining, event, dir');
      }
    }
  }

  /**
  The visible entries that fail grow by a resolve exactly when it leaves one over a stale
  signature that was not among them.
  */
  predicate Grows(config: Config, name: string, world: World, dir: Dir, event: Event) {
    && LeavesStale(config, name, world, dir, event)
    && JobOf(config, name, world.fetch).stem !in VisibleBad(config, dir, name)
  }

  lemma VisibleBadGrowsIff(config: Config, name: string, world: World, dir: Dir, event: Event, dir': Dir)
    requires IsCollisionFree(config.crypto) && IsResolve(config, name, world, dir, event, dir')
    ensures VisibleBad(config, dir', name) <= VisibleBad(config, dir, name) <==> !Grows(config, name, world, dir, event)
  {
    ResolveVisibleBad(config, name, world, dir, event, dir');
  }

  /**
  A directory with nothing but a stale signature, and a store that stops between its two renames:
  from none to one.
  */
  lemma VisibleBadCanGrow(config: Config, name: string, world: World, stale: FileEntry)
      returns (dir: Dir, event: Event, dir': Dir)
    requires IsCollisionFree(config.crypto) && CheckFetch(config, world.fetch).Pass?
    requires world.binaryFault.None? && world.signatureFault == Some(NotStarted)
    requires !config.crypto.verifies(world.fetch.bytes, stale.bytes)
    ensures dir == map[SignatureName(JobOf(config, name, world.fetch).stem) := stale]
    ensures IsResolve(config, name, world, dir, event, dir')
    ensures VisibleBad(config, dir, name) == {}
    ensures VisibleBad(config, dir', name) == {JobOf(config, name, world.fetch).stem}
  {
    var job := JobOf(config, name, world.fetch);
    FetchedJobIsVerified(config, name, world.fetch);
    SuffixIsNotStem(job.stem);
    TempNamesApart(job.stem, world.pid, job.stem, job.stem, world.pid);
    dir := map[SignatureName(job.stem) := stale];
    dir' := dir[job.stem := FileEntry(job.bytes, true, world.now)];
    event := Event(None, dir', [], Failure(StoreFailed));
    forall file ensures !IsVisible(dir, name, config.version, file) {
      if IsVisible(dir, name, config.version, file) {
        EntryIsStem(file, name, config.version);
      }
    }
    ResolveVisibleBad(config, name, world, dir, event, dir');
    assert VisibleBad(config, dir, name) == {};
  }

  /** A run of resolves of one name: the directories between them and what each did. */
  datatype Run = Run(dirs: seq<Dir>, worlds: seq<World>, events: seq<Event>)

  ghost predicate IsRun(config: Config, name: string, run: Run) {
    && |run.dirs| == |run.events| + 1 && |run.worlds| == |run.events|
    && forall i | 0 <= i < |run.events| ::
       IsResolve(config, name, run.worlds[i], run.dirs[i], run.events[i], run.dirs[i + 1])
  }

  ghost function BadHits(config: Config, run: Run, n: nat): nat
    requires |run.dirs| == |run.events| + 1 && n <= |run.events|
  {
    if n == 0 then 0
    else BadHits(config, run, n - 1) + (if IsBadHit(config, run.dirs[n - 1], run.events[n - 1]) then 1 else 0)
  }

  /** Every bad hit of the run can be removed. */
  ghost predicate RemovalsSucceed(run: Run) {
    |run.worlds| == |run.events| && forall i | 0 <= i < |run.events| :: HitIsRemovable(run.worlds[i], run.events[i])
  }

  predicate HitIsRemovable(world: World, event: Event) {
    event.hit.Some? ==> IsRemovable(world, event.hit.value)
  }

  /** Bad hits so far and taint that is left. */
  ghost function HitsAndTaint(config: Config, name: string, run: Run, i: nat): nat
    requires |run.dirs| == |run.events| + 1 && i <= |run.events|
  {
    BadHits(config, run, i) + |Tainted(config, run.dirs[i], name)|
  }

  lemma HitsAndTaintNeverRise(config: Config, name: string, run: Run, i: nat)
    requires IsCollisionFree(config.crypto) && IsRun(config, name, run) && RemovalsSucceed(run) && i < |run.events|
    ensures HitsAndTaint(config, name, run, i + 1) <= HitsAndTaint(config, name, run, i)
  {
    assert HitIsRemovable(run.worlds[i], run.events[i]);
    ResolveUsesUpTaint(config, name, run.worlds[i], run.dirs[i], run.events[i], run.dirs[i + 1]);
  }

  ghost predicate NeverRises(config: Config, name: string, run: Run)
    requires |run.dirs| == |run.events| + 1
  {
    forall i: nat | i < |run.events| :: HitsAndTaint(config, name, run, i + 1) <= HitsAndTaint(config, name, run, i)
  }

  lemma {:induction false} StaysBelowStart(config: Config, name: string, run: Run, n: nat)
    requires |run.dirs| == |run.events| + 1 && NeverRises(config, name, run) && n <= |run.events|
    ensures HitsAndTaint(config, name, run, n) <= HitsAndTaint(config, name, run, 0)
    decreases n
  {
    if n > 0 {
      StaysBelowStart(config, name, run, n - 1);
      assert HitsAndTaint(config, name, run, n - 1 + 1) <= HitsAndTaint(config, name, run, n - 1);
    }
  }

  /**
  Bad hits use up the taint that was there at the start, even when stores fail: there are never
  more of them than tainted stems.
  */
  lemma BadHitsAreBounded(config: Config, name: string, run: Run, n: nat)
    requires IsCollisionFree(config.crypto) && IsRun(config, name, run) && RemovalsSucceed(run) && n <= |run.events|
    ensures BadHits(config, run, n) + |Tainted(config, run.dirs[n], name)| <= |Tainted(config, run.dirs[0], name)|
  {
    forall i: nat | i < |run.events|
      ensures HitsAndTaint(config, name, run, i + 1) <= HitsAndTaint(config, name, run, i)
    {
      HitsAndTaintNeverRise(config, name, run, i);
    }
    StaysBelowStart(config, name, run, n);
  }

  lemma ResolveUsesUpTaint(config: Config, name: string, world: World, dir: Dir, event: Event, dir': Dir)
    requires IsCollisionFree(config.crypto) && IsResolve(config, name, world, dir, event, dir')
    requires HitIsRemovable(world, event)
    ensures (if IsBadHit(config, dir, event) then 1 else 0) + |Tainted(config, dir', name)|
            <= |Tainted(config, dir, name)|
  {
    ResolveShrinksTaint(config, name, world, dir, event, dir');
    CountDrop(Tainted(config, dir, name), Tainted(config, dir', name), IsBadHit(config, dir, event), event.hit, None);
  }

  /** The sizes of two sets when the second gains at most one element and lacks the one hit. */
  lemma CountDrop(before: set<string>, after: set<string>, bad: bool, hit: Option<string>, gained: Option<string>)
    requires if gained.Some? then after <= before + {gained.value} else after <= before
    requires bad ==> hit.Some? && hit.value in before && hit.value !in after
    ensures (if bad then 1 else 0) + |after| <= |before| + (if gained.Some? then 1 else 0)
  {
    var left := if bad then before - {hit.value} else before;
    if gained.Some? {
      SubsetSize(after, left + {gained.value});
    } else {
      SubsetSize(after, left);
    }
  }

  /** How many resolves of the run added a visible entry that fails. */
  ghost function Growths(config: Config, name: string, run: Run, n: nat): nat
    requires |run.dirs| == |run.events| + 1 && |run.worlds| == |run.events| && n <= |run.events|
  {
    if n == 0 then 0
    else
      Growths(config, name, run, n - 1)
      + (if Grows(config, name, run.worlds[n - 1], run.dirs[n - 1], run.events[n - 1]) then 1 else 0)
  }

  /** Bad hits use up the visible entries that fail: those of the start and those that failed stores have added. */
  lemma {:induction false} BadHitsUseUpVisibleBad(config: Config, name: string, run: Run, n: nat)
    requires IsCollisionFree(config.crypto) && IsRun(config, name, run) && RemovalsSucceed(run) && n <= |run.events|
    ensures BadHits(config, run, n) + |VisibleBad(config, run.dirs[n], name)|
            <= |VisibleBad(config, run.dirs[0], name)| + Growths(config, name, run, n)
    decreases n
  {
    if n > 0 {
      BadHitsUseUpVisibleBad(config, name, run, n - 1);
      assert HitIsRemovable(run.worlds[n - 1], run.events[n - 1]);
      ResolveUsesUpVisibleBad(config, name, run.worlds[n - 1], run.dirs[n - 1], run.events[n - 1], run.dirs[n]);
    }
  }

  lemma ResolveUsesUpVisibleBad(config: Config, name: string, world: World, dir: Dir, event: Event, dir': Dir)
    requires IsCollisionFree(config.crypto) && IsResolve(config, name, world, dir, event, dir')
    requires HitIsRemovable(world, event)
    ensures (if IsBadHit(config, dir, event) then 1 else 0) + |VisibleBad(config, dir', name)|
            <= |VisibleBad(config, dir, name)| + (if Grows(config, name, world, dir, event) then 1 else 0)
  {
    ResolveVisibleBad(config, name, world, dir, event, dir');
    var gained := if Grows(config, name, world, dir, event) then Some(JobOf(config, name, world.fetch).stem) else None;
    CountDrop(VisibleBad(config, dir, name), VisibleBad(config, dir', name), IsBadHit(config, dir, event),
              event.hit, gained);
  }

  /**
  When no store stops between its two files, the bad hits are at most the visible entries that
  failed at the start.
  */
  lemma {:induction false} BadHitsWithinVisibleBad(config: Config, name: string, run: Run, n: nat)
    requires IsCollisionFree(config.crypto) && IsRun(config, name, run) && RemovalsSucceed(run) && n <= |run.events|
    requires forall i | 0 <= i < |run.events| :: !Reach(run.worlds[i]).BinaryOnly?
    ensures BadHits(config, run, n) + |VisibleBad(config, run.dirs[n], name)| <= |VisibleBad(config, run.dirs[0], name)|
  {
    BadHitsUseUpVisibleBad(config, name, run, n);
    NoGrowths(config, name, run, n);
  }

  lemma {:induction false} NoGrowths(config: Config, name: string, run: Run, n: nat)
    requires |run.dirs| == |run.events| + 1 && |run.worlds| == |run.events| && n <= |run.events|
    requires forall i | 0 <= i < |run.events| :: !Reach(run.worlds[i]).BinaryOnly?
    ensures Growths(config, name, run, n) == 0
    decreases n
  {
    if n > 0 {
      NoGrowths(config, name, run, n - 1);
    }
  }

  /**
  Once no visible entry of the name fails and there is one, every later resolve is answered
  from the cache without touching it, with bytes that pass both checks; executable ones, if
  nothing of the name is tainted.
  */
  lemma {:induction false} HealedStaysOffline(config: Config, name: string, run: Run, n: nat, i: nat)
    requires IsRun(config, name, run) && n <= i < |run.events|
    requires VisibleBad(config, run.dirs[n], name) == {}
    requires exists stem :: IsVisible(run.dirs[n], name, config.version, stem)
    ensures run.dirs[i] == run.dirs[n] && run.dirs[i + 1] == run.dirs[n]
    ensures run.events[i].hit.Some? && run.events[i].result == Success(run.events[i].hit.value)
    ensures IsVerified(config.crypto, run.dirs[i], run.events[i].hit.value)
    ensures Tainted(config, run.dirs[n], name) == {} ==> run.dirs[i][run.events[i].hit.value].executable
    decreases i
  {
    if i > n {
      HealedStaysOffline(config, name, run, n, i - 1);
    }
    var dir, event := run.dirs[i], run.events[i];
    assert IsResolve(config, name, run.worlds[i], dir, event, run.dirs[i + 1]);
    var hit := event.hit.value;
    assert hit !in VisibleBad(config, dir, name);
    TaintedIff(config, dir, name, hit);
  }

  /** Whatever a resolve answers, the entry it names passes both checks if retention left it there. */
  lemma ResolvedIsVerified(config: Config, name: string, world: World, dir: Dir, event: Event, dir': Dir)
    requires IsCollisionFree(config.crypto) && IsResolve(config, name, world, dir, event, dir') && event.result.Success?
    ensures var stem := event.result.value;
            && EntrySha(stem, name, config.version).Some?
            && (stem in dir' && SignatureName(stem) in dir' ==> IsVerified(config.crypto, dir', stem))
            && (world.stays == {} && stem in dir' ==> SignatureName(stem) in dir')
  {
    if !IsGoodHit(config, dir, event) {
      var job := JobOf(config, name, world.fetch);
      FetchedJobIsVerified(config, name, world.fetch);
      var chosen := RetentionEffect(event.stored, event.listing, name, config.retained, world.stays);
      StemNotSignature(event.stored, name, chosen, job.stem);
    }
  }

  /** Retention takes a signature only together with its binary. */
  lemma StemNotSignature(dir: Dir, name: string, removed: set<string>, stem: string)
    requires removed <= Matching(dir, name) && IsStem(stem)
    ensures SignatureName(stem) in removed + SignaturesOf(removed) <==> stem in removed
    ensures stem !in SignaturesOf(removed)
  {
    SuffixIsNotStem(stem);
    if SignatureName(stem) in removed {
      RetainedIsStem(SignatureName(stem), name);
    }
    forall other | other in removed ensures SignatureName(other) == SignatureName(stem) ==> other == stem {
      SuffixInjective(other, stem);
    }
    forall other | other in removed ensures SignatureName(other) != stem {
      SuffixIsNotStem(other);
    }
  }

  /** What was verified and stored is found again, unless retention chose it and could remove a file of it. */
  lemma StoredIsFound(config: Config, name: string, world: World, dir: Dir, event: Event, dir': Dir)
    requires IsCollisionFree(config.crypto) && IsFetchAndStore(config, name, world, dir, event, dir')
    requires event.result.Success?
    ensures var stem := event.result.value;
            && IsVisible(event.stored, name, config.version, stem)
            && (IsVisible(dir', name, config.version, stem)
                <==> stem !in ChosenBy(config, name, event) || {stem, SignatureName(stem)} <= world.stays)
  {
    var job := JobOf(config, name, world.fetch);
    FetchedJobIsVerified(config, name, world.fetch);
    var chosen := RetentionEffect(event.stored, event.listing, name, config.retained, world.stays);
    StemNotSignature(event.stored, name, chosen, job.stem);
    VisibleAfter(event.stored, chosen, world.stays, name, config.version, job.stem);
  }

  lemma VisibleAfter(stored: Dir, chosen: set<string>, stays: set<string>, name: string, version: string, stem: string)
    requires IsVisible(stored, name, version, stem) && stem !in SignaturesOf(chosen)
    requires SignatureName(stem) in chosen + SignaturesOf(chosen) <==> stem in chosen
    ensures IsVisible(stored - (chosen + SignaturesOf(chosen) - stays), name, version, stem)
            <==> stem !in chosen || {stem, SignatureName(stem)} <= stays
  {
  }

  /** The other entries counted for the name that are as new as `now` or newer. */
  function NotOlderThan(dir: Dir, name: string, file: string, now: nat): set<string> {
    set other | other in Matching(dir, name) && other != file && dir[other].modified >= now
  }

  /**
  What was just stored survives the retention that follows, in whatever order it lists the
  directory, exactly when before the store fewer than the cap of other entries counted for
  the name were as new as the moment of the store or newer.
  */
  lemma StoredSurvivesIff(config: Config, name: string, world: World, dir: Dir, event: Event, dir': Dir)
    requires IsCollisionFree(config.crypto) && IsFetchAndStore(config, name, world, dir, event, dir')
    requires event.result.Success?
    ensures AlwaysSurvives(event.stored, name, config.retained, event.result.value)
            <==> |NotOlderThan(dir, name, event.result.value, world.now)| < config.retained
  {
    var job, stored := JobOf(config, name, world.fetch), event.stored;
    FetchedIsRetained(config, name, world.fetch);
    StoredIsDated(dir, stored, job, world.pid, world.now, name);
    SurvivesIff(stored, name, config.retained, job.stem);
  }

  lemma StoredIsDated(dir: Dir, stored: Dir, job: Job, pid: Pid, now: nat, name: string)
    requires IsStem(job.stem) && IsRetained(job.stem, name) && IsStore(dir, stored, job, pid, now, Both)
    ensures job.stem in Matching(stored, name)
    ensures NotOlder(stored, name, job.stem) == NotOlderThan(dir, name, job.stem, now)
  {
    StoreAddsOne(dir, stored, job, pid, now, name);
  }

  lemma StoreAddsOne(dir: Dir, stored: Dir, job: Job, pid: Pid, now: nat, name: string)
    requires IsStem(job.stem) && IsRetained(job.stem, name) && IsStore(dir, stored, job, pid, now, Both)
    ensures Matching(stored, name) == Matching(dir, name) + {job.stem}
    ensures forall file | file in Matching(dir, name) && file != job.stem :: stored[file] == dir[file]
  {
    forall other | other != job.stem && IsRetained(other, name) ensures SameAt(dir, stored, other) {
      RetainedIsStem(other, name);
      StoreTouchesOne(dir, stored, job, pid, now, Both, other);
    }
  }

  lemma FetchedIsRetained(config: Config, name: string, fetch: Fetch)
    requires IsCollisionFree(config.crypto) && CheckFetch(config, fetch).Pass?
    ensures IsRetained(JobOf(config, name, fetch).stem, name) && IsStem(JobOf(config, name, fetch).stem)
  {
    FetchedJobIsVerified(config, name, fetch);
    RetainedIff(JobOf(config, name, fetch).stem, name);
    assert JobOf(config, name, fetch).stem == Stem(name, config.version, fetch.sha);
  }

  /**
  What was fetched, verified and stored is there to be found when the resolve is over, if fewer
  than the configured number of other entries of the name are as new as the store or newer.
  */
  lemma StoredStays(config: Config, name: string, world: World, dir: Dir, event: Event, dir': Dir)
    requires IsCollisionFree(config.crypto) && IsFetchAndStore(config, name, world, dir, event, dir')
    requires event.result.Success?
    requires |NotOlderThan(dir, name, event.result.value, world.now)| < config.retained
    ensures var stem := event.result.value;
            && IsVisible(dir', name, config.version, stem)
            && dir'[stem] == FileEntry(world.fetch.bytes, true, world.now)
            && dir'[SignatureName(stem)].bytes == world.fetch.signature
  {
    StoredIsFound(config, name, world, dir, event, dir');
    StoredSurvivesIff(config, name, world, dir, event, dir');
    assert event.result.value !in Victims(event.stored, event.listing, name, config.retained);
    RetentionOutcome(event.stored, event.listing, name, config.retained, world.stays);
  }

  /** After a successful store the cap holds, counting what was there and the entry stored. */
  ghost predicate IsCapped(before: Dir, stem: string, after: Dir, name: string, cap: nat) {
    var all, kept := Matching(before, name) + {stem}, Matching(after, name);
    kept <= all && |kept| == if |all| <= cap then |all| else cap
  }

  /**
  A successful fetch leaves the configured number of the name's entries, the newest of those
  there and the one stored; the rest of the directory stays as the store left it.
  */
  lemma FetchKeepsTheCap(config: Config, name: string, world: World, dir: Dir, event: Event, dir': Dir)
    requires IsCollisionFree(config.crypto) && IsFetchAndStore(config, name, world, dir, event, dir')
    requires event.result.Success?
    ensures world.stays == {} ==> IsCapped(dir, event.result.value, dir', name, config.retained)
    ensures OldestWent(event.stored, dir', name, world.stays) && OnlyEntriesWent(event.stored, dir', name)
  {
    var job := JobOf(config, name, world.fetch);
    FetchedIsRetained(config, name, world.fetch);
    StoreAddsOne(dir, event.stored, job, world.pid, world.now, name);
    RetentionOutcome(event.stored, event.listing, name, config.retained, world.stays);
  }

  /** What the answer to a fetch has to be, by what the network delivered and how the two writes went. */
  function FetchAnswer(config: Config, name: string, world: World): Result<string, ResolveError> {
    match world.fetch
    case Unavailable => Failure(FetchFailed)
    case AssetMissing => Failure(AssetNotFound)
    case Fetched(sha, signature, bytes) =>
      if HexDigest(config.crypto, bytes) != sha
      then Failure(Unverified(ChecksumMismatch(sha, HexDigest(config.crypto, bytes))))
      else if !config.crypto.verifies(bytes, signature) then Failure(Unverified(SignatureMismatch))
      else if Fails(world.binaryFault, true) || Fails(world.signatureFault, false) then Failure(StoreFailed)
      else Success(name + "-" + config.version + "-" + sha)
  }

  /** A temporary file of the store a resolve may make. */
  predicate IsTempOf(file: string, config: Config, name: string, world: World) {
    && world.fetch.Fetched?
    && var job := JobOf(config, name, world.fetch);
       file == TempBinary(job.stem, world.pid) || file == TempSignature(job.stem, world.pid)
  }

  /**
  The answer to a resolve, whatever the directory and the world: a visible entry that
  passes both checks and nothing changed, else what the fetch comes to. Files of no entry
  of the name are as before, but for the store's own temporary ones.
  */
  lemma ResolveAnswers(config: Config, name: string, world: World, dir: Dir, event: Event, dir': Dir)
    requires IsCollisionFree(config.crypto) && IsResolve(config, name, world, dir, event, dir')
    ensures if event.hit.Some? && IsVerified(config.crypto, dir, event.hit.value)
            then
              && event.result == Success(event.hit.value) && dir' == dir
              && IsVisible(dir, name, config.version, event.hit.value)
            else event.result == FetchAnswer(config, name, world)
    ensures forall file | !IsOfName(file, name) && !IsTempOf(file, config, name, world) :: SameAt(dir, dir', file)
  {
    if !IsGoodHit(config, dir, event) {
      var remaining := Remaining(config, world, dir, event);
      if IsBadHit(config, dir, event) {
        VisibleIsRetained(dir, name, config.version, event.hit.value);
      }
      assert forall file | !IsOfName(file, name) :: SameAt(dir, remaining, file);
      if CheckFetch(config, world.fetch).Pass? {
        FetchFrame(config, name, world, remaining, event, dir');
      }
    }
  }

  lemma VisibleIsRetained(dir: Dir, name: string, version: string, stem: string)
    requires IsVisible(dir, name, version, stem)
    ensures IsRetained(stem, name)
  {
    var sha := EntrySha(stem, name, version).value;
    EntryIff(stem, name, version, sha);
    RetainedIff(stem, name);
  }

  lemma FetchFrame(config: Config, name: string, world: World, dir: Dir, event: Event, dir': Dir)
    requires IsCollisionFree(config.crypto) && IsFetchAndStore(config, name, world, dir, event, dir')
    requires CheckFetch(config, world.fetch).Pass?
    ensures forall file | !IsOfName(file, name) && !IsTempOf(file, config, name, world) :: SameAt(dir, dir', file)
  {
    var job := JobOf(config, name, world.fetch);
    FetchedIsRetained(config, name, world.fetch);
    StoreFrame(dir, event.stored, job, world.pid, world.now, Reach(world), name);
    if event.result.Success? {
      RetentionOutcome(event.stored, event.listing, name, config.retained, world.stays);
      OnlyOfNameWent(event.stored, dir', name);
    }
  }

  lemma StoreFrame(dir: Dir, stored: Dir, job: Job, pid: Pid, now: nat, reached: Reached, name: string)
    requires IsRetained(job.stem, name) && IsStore(dir, stored, job, pid, now, reached)
    ensures forall file | !IsOfName(file, name) && file != TempBinary(job.stem, pid)
              && file != TempSignature(job.stem, pid) :: SameAt(dir, stored, file)
  {
    assert IsOfName(job.stem, name) && IsOfName(SignatureName(job.stem), name);
  }

  lemma OnlyOfNameWent(stored: Dir, after: Dir, name: string)
    requires OnlyEntriesWent(stored, after, name)
    ensures forall file | !IsOfName(file, name) :: SameAt(stored, after, file)
  {
  }
}
