/**
The file store behind the configuration service: reading a level's document and replacing
it in one step, through a temporary file (cli/config-adapters/src/store.rs).
*/
module ConfigStore {
  import opened Wrappers
  import opened ConfigTree
  import opened ConfigWrites
  import opened ConfigKey
  import opened ConfigService
  import opened Decimals
  import opened Document
  import opened Paths
  import ConfigFile

  /**
  How a write can fail: on the way to the temporary directory, in the middle of the temporary
  file, or at the rename; the clean-up can fail too.
  */
  datatype Fault = NoTempDir(created: nat) | NotWritten(written: nat, removed: bool) | NotRenamed(removed: bool)

  function ContentAt(fs: FileSystem, path: FilePath): Option<string> {
    if path in fs.files then Some(fs.files[path]) else None
  }

  class FileConfigStore {
    const root: FilePath
    const pid: Pid
    var fs: FileSystem
    var counter: nat   // the process's WRITE_COUNTER

    constructor (root: FilePath, pid: Pid, fs: FileSystem)
      ensures this.root == root && this.pid == pid && this.fs == fs && counter == 0
    {
      this.root, this.pid, this.fs, counter := root, pid, fs, 0;
    }

    /** Creates the first `count` of the directories down to the temporary one where they are missing. */
    method CreateDirs(count: nat)
      requires count <= |TempDir(root)| + 1
      modifies this`fs
      ensures fs.files == old(fs.files) && old(fs.dirs) <= fs.dirs
      ensures forall dir | dir in fs.dirs :: dir in old(fs.dirs) || dir <= TempDir(root)
      ensures count == |TempDir(root)| + 1 ==> ConfigDir(root) in fs.dirs && TempDir(root) in fs.dirs
    {
      var path := TempDir(root);
      var i := 0;
      while i < count
        invariant i <= count && fs.files == old(fs.files) && old(fs.dirs) <= fs.dirs
        invariant forall j | 0 <= j < i :: path[..j] in fs.dirs
        invariant forall dir | dir in fs.dirs :: dir in old(fs.dirs) || dir <= path
      {
        fs := fs.(dirs := fs.dirs + {path[..i]});
        i := i + 1;
      }
      assert path[..|path|] == path && path[..|path| - 1] == ConfigDir(root);
    }

    method AtomicWrite(target: FilePath, contents: string, fault: Option<Fault>) returns (ok: bool)
      requires target != TempPath(root, pid, counter)
      modifies this
      ensures ok <==> fault.None?
      ensures counter == old(counter) + (if fault.Some? && fault.value.NoTempDir? then 0 else 1)
      ensures IsWrite(old(fs), fs, root, TempPath(root, pid, old(counter)), target, contents, ok)
      ensures fault.Some? && !fault.value.NoTempDir? && fault.value.removed ==>
                TempPath(root, pid, old(counter)) !in fs.files
    {
      var depth := |TempDir(root)|;
      if fault.Some? && fault.value.NoTempDir? {
        CreateDirs(if fault.value.created < depth then fault.value.created else depth);
        return false;
      }
      CreateDirs(depth + 1);
      var temp := TempPath(root, pid, counter);
      counter := counter + 1;
      if fault.Some? && fault.value.NotWritten? {
        var written := if fault.value.written < |contents| then contents[..fault.value.written] else contents;
        fs := fs.(files := fs.files[temp := written]);
        if fault.value.removed {
          fs := fs.(files := fs.files - {temp});
        }
        return false;
      }
      fs := fs.(files := fs.files[temp := contents]);
      if fault.Some? && fault.value.NotRenamed? {
        if fault.value.removed {
          fs := fs.(files := fs.files - {temp});
        }
        return false;
      }
      fs := fs.(files := (fs.files - {temp})[target := contents]);
      ok := true;
    }

    method Read(yaml: Yaml, level: Level) returns (reading: Reading)
      ensures reading == ConfigFile.ReadFile(yaml, ContentAt(fs, ConfigPath(root, level)))
    {
      var path := ConfigPath(root, level);
      if path !in fs.files {
        return Success(None);
      }
      match ReadDocument(yaml, fs.files[path]) {
        case Failure(detail) => reading := Failure(Unreadable(detail));
        case Success(node) => reading := Success(Some(node));
      }
    }

    /** Renders over what the file holds now, then replaces it. */
    method Write(yaml: Yaml, level: Level, document: Node, fault: Option<Fault>) returns (r: Outcome<ConfigError>)
      modifies this
      ensures var path := ConfigPath(root, level);
              match Render(yaml, ContentAt(old(fs), path), document)
              case Failure(detail) => r == Fail(Unreadable(detail)) && fs == old(fs) && counter == old(counter)
              case Success(contents) =>
                && IsWrite(old(fs), fs, root, TempPath(root, pid, old(counter)), path, contents, r.Pass?)
                && (r.Pass? <==> fault.None?)
    {
      var path := ConfigPath(root, level);
      var existing := if path in fs.files then Some(fs.files[path]) else None;
      var rendered := Render(yaml, existing, document);
      if rendered.Failure? {
        return Fail(Unreadable(rendered.error));
      }
      TempPathApart(root, pid, counter, ProjectContext, level, pid, counter);
      var ok := AtomicWrite(path, rendered.value, fault);
      r := if ok then Pass else Fail(WriteFailed);
    }

    /** The service's write over this store: the document is read, the key inserted in place, the file replaced. */
    method Set(yaml: Yaml, key: Key, value: string, level: Level, fault: Option<Fault>)
        returns (r: Outcome<ConfigError>)
      modifies this
      ensures var path := ConfigPath(root, level);
              match ConfigFile.SetFile(yaml, ContentAt(old(fs), path), key, value)
              case Failure(error) => r == Fail(error) && fs == old(fs)
              case Success(contents) =>
                && IsWrite(old(fs), fs, root, TempPath(root, pid, old(counter)), path, contents, r.Pass?)
                && (r.Pass? <==> fault.None?)
    {
      var reading := Read(yaml, level);
      if reading.Failure? {
        return Fail(reading.error);
      }
      var inserted := InsertKey(reading.value, key, value);
      if inserted.Failure? {
        return Fail(inserted.error);
      }
      r := Write(yaml, level, inserted.value, fault);
    }
  }

  /** A successful write is read back as it was given; every other fragment's file, at either level, is as it was. */
  lemma WrittenIsRead(yaml: Yaml, fs: FileSystem, fs': FileSystem, root: FilePath, pid: Pid, write: nat,
                      level: Level, document: Node,
                      source: FragmentSource, other: Level)
    requires IsFaithful(yaml)
    requires var path := ConfigPath(root, level);
             var rendered := Render(yaml, ContentAt(fs, path), document);
             rendered.Success? && IsWrite(fs, fs', root, TempPath(root, pid, write), path, rendered.value, true)
    ensures ConfigFile.ReadFile(yaml, ContentAt(fs', ConfigPath(root, level))) == Success(Some(document))
    ensures ExistingBody(yaml, ContentAt(fs', ConfigPath(root, level)))
            == ExistingBody(yaml, ContentAt(fs, ConfigPath(root, level)))
    ensures (source, other) != (ProjectContext, level) ==>
              ContentAt(fs', FragmentPath(root, source, other)) == ContentAt(fs, FragmentPath(root, source, other))
  {
    var path, others := ConfigPath(root, level), FragmentPath(root, source, other);
    RenderRoundTrips(yaml, ContentAt(fs, path), document);
    TempPathApart(root, pid, write, source, other, pid, write);
    if others == path {
      FragmentPathInjective(root, source, other, ProjectContext, level);
    } else {
      assert Unchanged(fs, fs', others);
    }
  }

  /** A successful set, as both levels' readers see it: an edit of the level's document, and the other as it was. */
  lemma SetIsRead(yaml: Yaml, fs: FileSystem, fs': FileSystem, root: FilePath, pid: Pid, write: nat, level: Level,
                  key: Key, value: string)
    requires IsFaithful(yaml)
    requires var path := ConfigPath(root, level);
             var written := ConfigFile.SetFile(yaml, ContentAt(fs, path), key, value);
             written.Success? && IsWrite(fs, fs', root, TempPath(root, pid, write), path, written.value, true)
    ensures var before := ConfigFile.ReadFile(yaml, ContentAt(fs, ConfigPath(root, level)));
            var after := ConfigFile.ReadFile(yaml, ContentAt(fs', ConfigPath(root, level)));
            && before.Success? && after.Success? && after.value.Some?
            && IsDocumentEdit(before.value, after.value.value, key, value)
    ensures ContentAt(fs', ConfigPath(root, Other(level))) == ContentAt(fs, ConfigPath(root, Other(level)))
  {
    var path := ConfigPath(root, level);
    ConfigFile.SetThenRead(yaml, ContentAt(fs, path), key, value);
    var document := ConfigFile.Prepare(yaml, ContentAt(fs, path), key, value).value;
    WrittenIsRead(yaml, fs, fs', root, pid, write, level, document, ProjectContext, Other(level));
  }
}
