/**
The configuration service over its two levels: reads with personal-over-team
precedence, writes to one level (cli/config/src/service.rs).
*/
module ConfigService {
  import opened Wrappers
  import opened ConfigTree
  import opened ConfigWrites
  import opened ConfigKey
  import opened MappingTree

  datatype Level = Team | Personal

  datatype ConfigError =
    | Unreadable(detail: string)
    | PathConflict(key: Key, conflict: Conflict)
    | WriteFailed

  /** What reading a level yields: its document, nothing when its file is absent, or a failure. */
  type Reading = Result<Option<Node>, ConfigError>

  datatype Levels = Levels(team: Reading, personal: Reading) {
    function Read(level: Level): Reading {
      match level case Team => team case Personal => personal
    }

    function Replace(level: Level, document: Node): Levels {
      match level
      case Team => this.(team := Success(Some(document)))
      case Personal => this.(personal := Success(Some(document)))
    }
  }

  /** The answer to a read: the scalar when present, even null or the empty string. */
  function Lookup(levels: Levels, key: Key, level: Option<Level>): Result<Option<Scalar>, ConfigError> {
    match level
    case Some(only) =>
      (match levels.Read(only)
       case Failure(error) => Failure(error)
       case Success(document) => Success(Resolve(document, key)))
    case None =>
      if levels.personal.Failure? then Failure(levels.personal.error)
      else if levels.team.Failure? then Failure(levels.team.error)
      else
        var own := Resolve(levels.personal.value, key);
        Success(if own.Some? then own else Resolve(levels.team.value, key))
  }

  /** The mapping a write starts from: anything but a mapping counts as empty. */
  function WriteRoot(document: Option<Node>): seq<Entry> {
    match document
    case Some(Section(entries)) => entries
    case _ => []
  }

  /** The effect of a write; `writable` says whether the level accepts the new document. */
  function Write(levels: Levels, key: Key, value: string, level: Level, writable: bool)
      : (Levels, Outcome<ConfigError>)
  {
    match levels.Read(level)
    case Failure(error) => (levels, Fail(error))
    case Success(document) =>
      match Insertion(WriteRoot(document), key, value)
      case Failure(conflict) => (levels, Fail(PathConflict(key, conflict)))
      case Success(updated) =>
        if writable then (levels.Replace(level, Section(updated)), Pass) else (levels, Fail(WriteFailed))
  }

  /** The path walk, segment by segment. */
  method Walk(document: Option<Node>, key: Key) returns (r: Option<Scalar>)
    ensures r == Resolve(document, key)
  {
    if document.None? {
      return None;
    }
    var current, i := document.value, 0;
    while i < |key|
      invariant i <= |key|
      invariant NodeAt(document.value, key) == NodeAt(current, key[i..])
    {
      if !current.Section? {
        return None;
      }
      match Get(current.entries, key[i]) {
        case Some(child) =>
          assert key[i..][1..] == key[i + 1..];
          current := child;
        case None =>
          return None;
      }
      i := i + 1;
    }
    r := if current.Leaf? then Some(current.scalar) else None;
  }

  /** The document to be written: a tree of the mapping read, or an empty one, with the key inserted in place. */
  method InsertKey(document: Option<Node>, key: Key, value: string) returns (r: Result<Node, ConfigError>)
    ensures match Insertion(WriteRoot(document), key, value)
            case Failure(conflict) => r == Failure(PathConflict(key, conflict))
            case Success(updated) => r == Success(Section(updated))
  {
    var root: Mapping;
    match document {
      case Some(Section(entries)) =>
        root := FromEntries(entries);
      case _ =>
        root := new Mapping();
    }
    var inserted := root.Insert(key, value);
    if inserted.Fail? {
      return Failure(PathConflict(key, inserted.error));
    }
    var updated := root.Snapshot();
    r := Success(Section(updated));
  }

  class ConfigAccess {
    var levels: Levels

    constructor (levels: Levels)
      ensures this.levels == levels
    {
      this.levels := levels;
    }

    method Get(key: Key, level: Option<Level>) returns (r: Result<Option<Scalar>, ConfigError>)
      ensures r == Lookup(levels, key, level)
    {
      if level.Some? {
        var reading := levels.Read(level.value);
        if reading.Failure? {
          return Failure(reading.error);
        }
        var found := Walk(reading.value, key);
        return Success(found);
      }
      if levels.personal.Failure? {
        return Failure(levels.personal.error);
      }
      if levels.team.Failure? {
        return Failure(levels.team.error);
      }
      var found := Walk(levels.personal.value, key);
      if found.None? {
        found := Walk(levels.team.value, key);
      }
      r := Success(found);
    }

    method Set(key: Key, value: string, level: Level, writable: bool) returns (r: Outcome<ConfigError>)
      modifies this
      ensures (levels, r) == Write(old(levels), key, value, level, writable)
    {
      var reading := levels.Read(level);
      if reading.Failure? {
        return Fail(reading.error);
      }
      var inserted := InsertKey(reading.value, key, value);
      if inserted.Failure? {
        return Fail(inserted.error);
      }
      if !writable {
        return Fail(WriteFailed);
      }
      levels := levels.Replace(level, inserted.value);
      r := Pass;
    }
  }

  // ---- What a write promises to later reads ----

  function Other(level: Level): Level {
    match level case Team => Personal case Personal => Team
  }

  /** The entries of a mapping; anything else, and nothing, has none. */
  predicate HasEntries(document: Option<Node>, entries: seq<Entry>) {
    if document.Some? && document.value.Section? then document.value.entries == entries else entries == []
  }

  /**
  A write passes exactly when its level can be read and written and the key's path is free
  there. It edits that level's document and nothing else; a refused one changes nothing.
  */
  lemma WriteEdits(levels: Levels, key: Key, value: string, level: Level, writable: bool)
    ensures var (after, outcome) := Write(levels, key, value, level, writable);
            && (outcome.Pass? <==>
                  && levels.Read(level).Success? && writable
                  && exists entries :: HasEntries(levels.Read(level).value, entries) && IsFree(entries, key))
            && (outcome.Fail? ==> after == levels)
            && (outcome.Pass? ==>
                  && after.Read(Other(level)) == levels.Read(Other(level))
                  && after.Read(level).Success? && after.Read(level).value.Some?
                  && IsDocumentEdit(levels.Read(level).value, after.Read(level).value.value, key, value))
  {
    if levels.Read(level).Success? {
      var document := levels.Read(level).value;
      var root := WriteRoot(document);
      assert HasEntries(document, root) && forall entries | HasEntries(document, entries) :: entries == root;
      InsertSucceedsIff(root, key, value);
      if Insertion(root, key, value).Success? {
        InsertEdits(root, key, value);
      }
    }
  }

  lemma WriteReads(levels: Levels, key: Key, value: string, level: Level, writable: bool, other: Key)
    requires Write(levels, key, value, level, writable).1.Pass?
    ensures var after := Write(levels, key, value, level, writable).0;
            && after.Read(Other(level)) == levels.Read(Other(level))
            && levels.Read(level).Success? && after.Read(level).Success?
            && Resolve(after.Read(level).value, other)
               == if other == key then Some(String(value)) else Resolve(levels.Read(level).value, other)
  {
    var root := WriteRoot(levels.Read(level).value);
    ResolveAfterInsert(root, key, value, other);
    assert Resolve(Some(Section(root)), other) == Resolve(levels.Read(level).value, other);
  }

  /**
  What is read after a write: at its level the value written; over both levels the value,
  unless the write was to the team level and the personal one has an answer of its own, be it
  null or empty; for every other key what was read before.
  */
  lemma SetThenGet(levels: Levels, key: Key, value: string, level: Level, writable: bool, other: Key,
                   scope: Option<Level>)
    requires Write(levels, key, value, level, writable).1.Pass?
    ensures var after, own := Write(levels, key, value, level, writable).0, Lookup(levels, key, Some(Personal));
            && Lookup(after, key, Some(level)) == Success(Some(String(value)))
            && Lookup(after, key, Some(Other(level))) == Lookup(levels, key, Some(Other(level)))
            && (other != key ==> Lookup(after, other, scope) == Lookup(levels, other, scope))
            && (levels.team.Success? && levels.personal.Success? ==>
                  Lookup(after, key, None)
                  == if level.Team? && own.value.Some? then own else Success(Some(String(value))))
  {
    WriteReads(levels, key, value, level, writable, key);
    WriteReads(levels, key, value, level, writable, other);
    var after := Write(levels, key, value, level, writable).0;
    ReadsAlike(levels, after, level, other, scope);
  }

  /** A read fails with the first failure among the levels it consults, the personal one before the team's. */
  lemma LookupFailsIff(levels: Levels, key: Key, scope: Option<Level>, error: ConfigError)
    ensures Lookup(levels, key, scope) == Failure(error)
            <==> if scope.Some? then levels.Read(scope.value) == Failure(error)
                 else || levels.personal == Failure(error)
                      || (levels.personal.Success? && levels.team == Failure(error))
  {
  }

  /** A lookup depends on what the two levels answer for the key. */
  lemma ReadsAlike(levels: Levels, after: Levels, level: Level, key: Key, scope: Option<Level>)
    requires after.Read(Other(level)) == levels.Read(Other(level))
    requires levels.Read(level).Success? && after.Read(level).Success?
    ensures Resolve(after.Read(level).value, key) == Resolve(levels.Read(level).value, key) ==>
              Lookup(after, key, scope) == Lookup(levels, key, scope)
  {
  }
}
