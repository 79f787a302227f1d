/**
The shared cache directory and the operations on it, one process at a time
(cli/launcher/src/launch/outbound/resolve/cache.rs).
*/
module CacheDirectory {
  import opened Wrappers
  import opened Verifier
  import opened CacheNames
  import opened Decimals

  datatype FileEntry = FileEntry(bytes: Bytes, executable: bool, modified: nat)

  type Dir = map<string, FileEntry>

  // ---- File operations ----

  /** Creates the file or replaces its content; an existing file keeps its mode. */
  function WriteFile(dir: Dir, file: string, bytes: Bytes, now: nat): Dir {
    dir[file := FileEntry(bytes, file in dir && dir[file].executable, now)]
  }

  function MarkExecutable(dir: Dir, file: string): Dir {
    if file in dir then dir[file := dir[file].(executable := true)] else dir
  }

  function Rename(dir: Dir, from: string, to: string): Dir {
    if from in dir then (dir - {from})[to := dir[from]] else dir
  }

  function Remove(dir: Dir, file: string): Dir {
    dir - {file}
  }

  /** A removal whose failure is ignored; `stays` are the files that cannot be removed. */
  function TryRemove(dir: Dir, file: string, stays: set<string>): Dir {
    if file in stays then dir else Remove(dir, file)
  }

  // ---- Entries ----

  /** What `find` may return: an entry of the name and version whose signature is there too. */
  predicate IsVisible(dir: Dir, name: string, version: string, file: string) {
    EntrySha(file, name, version).Some? && file in dir && SignatureName(file) in dir
  }

  /** The two checks on an entry's current content. */
  predicate IsVerified(crypto: Crypto, dir: Dir, stem: string) {
    && IsStem(stem) && stem in dir && SignatureName(stem) in dir
    && VerifyBinary(crypto, dir[stem].bytes, ShaOf(stem), dir[SignatureName(stem)].bytes).Pass?
  }

  /** A complete, executable binary with the checksum in its name, which some trusted signature covers. */
  ghost predicate IsGoodBinary(crypto: Crypto, stem: string, entry: FileEntry)
    requires IsStem(stem)
  {
    entry.executable && IsGoodContent(crypto, stem, entry.bytes)
  }

  ghost predicate IsGoodContent(crypto: Crypto, stem: string, bytes: Bytes)
    requires IsStem(stem)
  {
    HexDigest(crypto, bytes) == ShaOf(stem) && IsSigned(crypto, bytes)
  }

  /** A signature that verifies whatever content belongs under the name. */
  ghost predicate IsGoodSignature(crypto: Crypto, stem: string, signature: Bytes)
    requires IsStem(stem)
  {
    forall bytes: Bytes | IsGoodContent(crypto, stem, bytes) :: crypto.verifies(bytes, signature)
  }

  /** Whatever is there under the stem is good; either file may be missing. */
  ghost predicate IsSound(crypto: Crypto, dir: Dir, stem: string)
    requires IsStem(stem)
  {
    && (stem in dir ==> IsGoodBinary(crypto, stem, dir[stem]))
    && (SignatureName(stem) in dir ==> IsGoodSignature(crypto, stem, dir[SignatureName(stem)].bytes))
  }

  /** A visible sound entry is executable and passes both checks. */
  lemma SoundIsVerified(crypto: Crypto, dir: Dir, name: string, version: string, stem: string)
    requires IsStem(stem) && IsSound(crypto, dir, stem) && IsVisible(dir, name, version, stem)
    ensures IsVerified(crypto, dir, stem) && dir[stem].executable
    ensures EntrySha(stem, name, version) == Some(ShaOf(stem))
  {
    var sha := EntrySha(stem, name, version).value;
    EntryIff(stem, name, version, sha);
    StemIsStem(name, version, sha);
    assert IsGoodContent(crypto, stem, dir[stem].bytes);
  }

  lemma VisibleIsStem(dir: Dir, name: string, version: string, stem: string)
    requires IsVisible(dir, name, version, stem)
    ensures IsStem(stem) && EntrySha(stem, name, version) == Some(ShaOf(stem))
  {
    var sha := EntrySha(stem, name, version).value;
    EntryIff(stem, name, version, sha);
    StemIsStem(name, version, sha);
  }

  // ---- Retention ----

  /** Moves an element before everything not older than itself, so that equal times keep their order. */
  function Place(dir: Dir, file: string, sorted: seq<string>): seq<string> {
    if sorted == [] || Modified(dir, file) <= Modified(dir, sorted[0]) then [file] + sorted
    else [sorted[0]] + Place(dir, file, sorted[1..])
  }

  function Modified(dir: Dir, file: string): nat {
    if file in dir then dir[file].modified else 0
  }

  /** A stable sort by modification time, oldest first. */
  function SortByModified(dir: Dir, files: seq<string>): seq<string> {
    if files == [] then [] else Place(dir, files[0], SortByModified(dir, files[1..]))
  }

  function Retained(listing: seq<string>, name: string): seq<string> {
    if listing == [] then []
    else if IsRetained(listing[0], name) then [listing[0]] + Retained(listing[1..], name)
    else Retained(listing[1..], name)
  }

  /** The files retention removes when the directory is listed in this order. */
  function Victims(dir: Dir, listing: seq<string>, name: string, cap: nat): seq<string> {
    var all := SortByModified(dir, Retained(listing, name));
    if |all| <= cap then [] else all[..|all| - cap]
  }

  /** Each victim goes, and its signature with it, as far as they can be removed. */
  function RemoveEntries(dir: Dir, victims: seq<string>, stays: set<string>): Dir {
    if victims == [] then dir
    else RemoveEntries(Evicted(dir, victims[0], stays), victims[1..], stays)
  }

  /** A directory listing: every file once, in any order. */
  ghost predicate Lists(listing: seq<string>, dir: Dir) {
    && (forall file :: file in listing <==> file in dir)
    && (forall i, j | 0 <= i < j < |listing| :: listing[i] != listing[j])
  }

  datatype Cached = Cached(stem: string, sha: string)

  /** How a write can fail: before anything is written, partly written, not marked executable, not renamed. */
  datatype Fault = NotStarted | Partly(written: nat) | NotMarked | NotRenamed(removed: bool)

  /** Whether a write ends in an error; only an executable file has its mode changed. */
  predicate Fails(fault: Option<Fault>, executable: bool) {
    fault.Some? && (fault.value.NotMarked? ==> executable)
  }

  /** How far a store came: which of its two final files it has put in place. */
  datatype Reached = Neither | BinaryOnly | Both

  function ReachOf(binaryFault: Option<Fault>, signatureFault: Option<Fault>): Reached {
    if Fails(binaryFault, true) then Neither else if Fails(signatureFault, false) then BinaryOnly else Both
  }

  /** The directory a write leaves, wherever it fails. */
  function Written(dir: Dir, temp: string, final: string, bytes: Bytes, executable: bool, now: nat,
                   fault: Option<Fault>): Dir
  {
    var full := WriteFile(dir, temp, bytes, now);
    var marked := if executable then MarkExecutable(full, temp) else full;
    match fault
    case None => Rename(marked, temp, final)
    case Some(NotStarted) => dir
    case Some(Partly(written)) => WriteFile(dir, temp, FirstBytes(bytes, written), now)
    case Some(NotMarked) => if executable then full else Rename(full, temp, final)
    case Some(NotRenamed(removed)) => if removed then Remove(marked, temp) else marked
  }

  function FirstBytes(bytes: Bytes, count: nat): Bytes {
    if count < |bytes| then bytes[..count] else bytes
  }

  /** The directory a store leaves: the binary, and only once it is in place the signature. */
  function Stored(dir: Dir, job: Job, pid: Pid, now: nat, binaryFault: Option<Fault>,
                  signatureFault: Option<Fault>): Dir
  {
    var placed := Written(dir, TempBinary(job.stem, pid), job.stem, job.bytes, true, now, binaryFault);
    if Fails(binaryFault, true) then placed
    else
      Written(placed, TempSignature(job.stem, pid), SignatureName(job.stem), job.signature, false, now,
              signatureFault)
  }

  class Cache {
    var files: Dir

    constructor (files: Dir)
      ensures this.files == files
    {
      this.files := files;
    }

    method ReadDir() returns (listing: seq<string>)
      ensures Lists(listing, files)
    {
      listing := [];
      var rest := files.Keys;
      while rest != {}
        invariant rest <= files.Keys
        invariant forall file :: file in listing <==> file in files && file !in rest
        invariant forall i, j | 0 <= i < j < |listing| :: listing[i] != listing[j]
      {
        var file :| file in rest;
        rest := rest - {file};
        listing := listing + [file];
      }
    }

    /** The first listed entry of the name and version whose signature exists. */
    method Find(name: string, version: string) returns (hit: Option<Cached>)
      ensures hit.None? <==> forall file :: !IsVisible(files, name, version, file)
      ensures hit.Some? ==> IsVisible(files, name, version, hit.value.stem)
      ensures hit.Some? ==> EntrySha(hit.value.stem, name, version) == Some(hit.value.sha)
    {
      var listing := ReadDir();
      var i := 0;
      while i < |listing|
        invariant i <= |listing|
        invariant forall j | 0 <= j < i :: !IsVisible(files, name, version, listing[j])
      {
        var sha := EntrySha(listing[i], name, version);
        if sha.Some? && SignatureName(listing[i]) in files {
          var file := listing[i];
          assert file in listing && IsVisible(files, name, version, file);
          return Some(Cached(file, sha.value));
        }
        i := i + 1;
      }
      forall file ensures !IsVisible(files, name, version, file) {
        assert file in files ==> file in listing;
      }
      hit := None;
    }

    /** Writes a temporary file and moves it into place in one step. */
    method WriteThenRename(temp: string, final: string, bytes: Bytes, executable: bool, now: nat, fault: Option<Fault>)
        returns (ok: bool)
      requires temp != final
      modifies this
      ensures forall file | file != temp && file != final :: SameAt(old(files), files, file)
      ensures ok ==> temp !in files && final in files && files[final].bytes == bytes && files[final].modified == now
      ensures ok && executable ==> files[final].executable
      ensures !ok ==> SameAt(old(files), files, final)
      ensures ok <==> !Fails(fault, executable)
      ensures files == Written(old(files), temp, final, bytes, executable, now, fault)
      ensures fault == Some(NotStarted) ==> files == old(files)
      ensures fault == Some(NotRenamed(true)) ==> temp !in files
    {
      if fault == Some(NotStarted) {
        return false;
      }
      var written := if fault.Some? && fault.value.Partly? then FirstBytes(bytes, fault.value.written) else bytes;
      files := WriteFile(files, temp, written, now);
      if fault.Some? && fault.value.Partly? {
        return false;
      }
      if executable {
        if fault == Some(NotMarked) {
          return false;
        }
        files := MarkExecutable(files, temp);
      }
      if fault.Some? && fault.value.NotRenamed? {
        if fault.value.removed {
          files := Remove(files, temp);
        }
        return false;
      }
      files := Rename(files, temp, final);
      ok := true;
    }

    /** The binary first, then the signature, so that an entry is visible only once both are in place. */
    method Store(job: Job, pid: Pid, now: nat, binaryFault: Option<Fault>, signatureFault: Option<Fault>)
        returns (ok: bool)
      requires IsStem(job.stem)
      modifies this
      ensures files == Stored(old(files), job, pid, now, binaryFault, signatureFault)
      ensures IsStore(old(files), files, job, pid, now, ReachOf(binaryFault, signatureFault))
      ensures ok <==> ReachOf(binaryFault, signatureFault).Both?
    {
      TempNamesApart(job.stem, pid, job.stem, job.stem, pid);
      ok := WriteThenRename(TempBinary(job.stem, pid), job.stem, job.bytes, true, now, binaryFault);
      ghost var mid := files;
      assert forall file | file !in JobNames(job, pid) :: SameAt(old(files), mid, file);
      assert SameAt(old(files), mid, SignatureName(job.stem));
      if ok {
        ok := WriteThenRename(TempSignature(job.stem, pid), SignatureName(job.stem), job.signature, false, now,
                              signatureFault);
        assert forall file | file !in JobNames(job, pid) :: SameAt(old(files), mid, file) && SameAt(mid, files, file);
        assert SameAt(mid, files, job.stem) && SameAt(mid, files, TempBinary(job.stem, pid));
      }
    }

    method Evict(cached: Cached, stays: set<string>)
      modifies this
      ensures files == Evicted(old(files), cached.stem, stays)
    {
      files := TryRemove(files, cached.stem, stays);
      files := TryRemove(files, SignatureName(cached.stem), stays);
    }

    /** Removes the oldest entries of the name beyond `cap`. */
    method EnforceRetentionCap(name: string, cap: nat, stays: set<string>) returns (ghost listing: seq<string>)
      modifies this
      ensures Lists(listing, old(files))
      ensures files == RemoveEntries(old(files), Victims(old(files), listing, name, cap), stays)
    {
      var order := ReadDir();
      listing := order;
      var binaries: seq<string> := [];
      var i := 0;
      while i < |order|
        invariant i <= |order|
        invariant binaries + Retained(order[i..], name) == Retained(order, name)
      {
        assert order[i..][1..] == order[i + 1..];
        if IsRetained(order[i], name) {
          binaries := binaries + [order[i]];
        }
        i := i + 1;
      }
      assert order[i..] == [] && binaries + [] == binaries;
      binaries := SortByModified(files, binaries);
      if |binaries| <= cap {
        return;
      }
      var removeCount := |binaries| - cap;
      ghost var victims := binaries[..removeCount];
      i := 0;
      while i < removeCount
        invariant i <= removeCount
        invariant RemoveEntries(files, victims[i..], stays) == RemoveEntries(old(files), victims, stays)
      {
        assert victims[i] == binaries[i] && victims[i..][1..] == victims[i + 1..];
        ghost var before := files;
        files := TryRemove(files, binaries[i], stays);
        files := TryRemove(files, SignatureName(binaries[i]), stays);
        assert files == Evicted(before, binaries[i], stays);
        i := i + 1;
      }
    }
  }

  function Evicted(dir: Dir, stem: string, stays: set<string>): Dir {
    dir - ({stem, SignatureName(stem)} - stays)
  }

  /** What a process is asked to store: a binary and signature under a stem. */
  datatype Job = Job(stem: string, bytes: Bytes, signature: Bytes)

  function JobNames(job: Job, pid: Pid): set<string> {
    {job.stem, SignatureName(job.stem), TempBinary(job.stem, pid), TempSignature(job.stem, pid)}
  }

  ghost predicate SameAt(dir: Dir, dir': Dir, file: string) {
    (file in dir' <==> file in dir) && (file in dir ==> dir'[file] == dir[file])
  }

  /** The binary stands complete under the job's stem, dated `now`. */
  predicate IsPlaced(dir: Dir, job: Job, now: nat) {
    job.stem in dir && dir[job.stem] == FileEntry(job.bytes, true, now)
  }

  /**
  Each of the two final files is as it was or complete, by how far the store came; only the job's
  own names are touched.
  */
  ghost predicate IsStore(dir: Dir, dir': Dir, job: Job, pid: Pid, now: nat, reached: Reached) {
    && (forall file | file !in JobNames(job, pid) :: SameAt(dir, dir', file))
    && (if reached.Neither? then SameAt(dir, dir', job.stem)
        else IsPlaced(dir', job, now) && TempBinary(job.stem, pid) !in dir')
    && (if reached.Both?
        then
          && SignatureName(job.stem) in dir' && dir'[SignatureName(job.stem)].bytes == job.signature
          && TempSignature(job.stem, pid) !in dir'
        else SameAt(dir, dir', SignatureName(job.stem)))
  }

  /** What a write leaves of its two names; nothing else changes. */
  lemma WrittenFacts(dir: Dir, temp: string, final: string, bytes: Bytes, executable: bool, now: nat,
                     fault: Option<Fault>)
    requires temp != final
    ensures var dir' := Written(dir, temp, final, bytes, executable, now, fault);
            && (forall file | file != temp && file != final :: SameAt(dir, dir', file))
            && (if Fails(fault, executable) then SameAt(dir, dir', final)
                else
                  && temp !in dir' && final in dir' && dir'[final].bytes == bytes && dir'[final].modified == now
                  && (executable ==> dir'[final].executable))
  {
  }

  lemma StoredIsStore(dir: Dir, job: Job, pid: Pid, now: nat, binaryFault: Option<Fault>, signatureFault: Option<Fault>)
    requires IsStem(job.stem)
    ensures IsStore(dir, Stored(dir, job, pid, now, binaryFault, signatureFault), job, pid, now,
                    ReachOf(binaryFault, signatureFault))
  {
    TempNamesApart(job.stem, pid, job.stem, job.stem, pid);
    WrittenFacts(dir, TempBinary(job.stem, pid), job.stem, job.bytes, true, now, binaryFault);
    var placed := Written(dir, TempBinary(job.stem, pid), job.stem, job.bytes, true, now, binaryFault);
    WrittenFacts(placed, TempSignature(job.stem, pid), SignatureName(job.stem), job.signature, false, now,
                 signatureFault);
  }
}
