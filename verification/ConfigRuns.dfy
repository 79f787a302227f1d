/**
Whole runs of reads and writes at both levels, against two flat maps from paths to
scalars (cli/config/src/service.rs).
*/
module ConfigRuns {
  import opened Wrappers
  import opened ConfigTree
  import opened ConfigWrites
  import opened ConfigKey
  import opened ConfigService

  datatype Command =
    | Get(key: Key, scope: Option<Level>)
    | Set(key: Key, value: string, level: Level, writable: bool)

  /** What a caller observes: a failure, a lookup's result, or whether a write was accepted. */
  datatype Answer = Failed | Found(scalar: Option<Scalar>) | Written(accepted: bool)

  function Execute(levels: Levels, command: Command): (Levels, Answer) {
    match command
    case Get(key, scope) =>
      (match Lookup(levels, key, scope)
       case Failure(_) => (levels, Failed)
       case Success(scalar) => (levels, Found(scalar)))
    case Set(key, value, level, writable) =>
      var (after, outcome) := Write(levels, key, value, level, writable);
      (after, Written(outcome.Pass?))
  }

  function Run(levels: Levels, commands: seq<Command>): (Levels, seq<Answer>)
    decreases |commands|
  {
    if commands == [] then (levels, [])
    else
      var (after, answer) := Execute(levels, commands[0]);
      var (final, answers) := Run(after, commands[1..]);
      (final, [answer] + answers)
  }

  // ---- The flat machine ----

  type FlatMap = imap<Path, Scalar>

  /** One flat map per readable level. */
  datatype Flat = Flat(team: Option<FlatMap>, personal: Option<FlatMap>) {
    ghost function At(level: Level): Option<FlatMap> {
      match level case Team => team case Personal => personal
    }

    ghost function Update(level: Level, path: Path, scalar: Scalar): Flat
      requires At(level).Some?
    {
      match level
      case Team => this.(team := Some(team.value[path := scalar]))
      case Personal => this.(personal := Some(personal.value[path := scalar]))
    }
  }

  ghost function Pick(m: FlatMap, path: Path): Option<Scalar> {
    if path in m then Some(m[path]) else None
  }

  /** The personal map laid over the team map; both must be readable. */
  ghost function FlatLookup(flat: Flat, path: Path, scope: Option<Level>): Answer {
    match scope
    case Some(level) => if flat.At(level).Some? then Found(Pick(flat.At(level).value, path)) else Failed
    case None =>
      if flat.team.None? || flat.personal.None? then Failed
      else Found(Pick(flat.team.value + flat.personal.value, path))
  }

  /** A flat step: an accepted write is one map update, everything else changes nothing. */
  ghost function FlatExecute(flat: Flat, command: Command, accepted: bool): (Flat, Answer) {
    match command
    case Get(key, scope) => (flat, FlatLookup(flat, key, scope))
    case Set(key, value, level, _) =>
      if accepted && flat.At(level).Some? then (flat.Update(level, key, String(value)), Written(true))
      else (flat, Written(false))
  }

  ghost function FlatRun(flat: Flat, commands: seq<Command>, answers: seq<Answer>): (Flat, seq<Answer>)
    requires |commands| == |answers|
    decreases |commands|
  {
    if commands == [] then (flat, [])
    else
      var (after, answer) := FlatExecute(flat, commands[0], answers[0] == Written(true));
      var (final, rest) := FlatRun(after, commands[1..], answers[1..]);
      (final, [answer] + rest)
  }

  // ---- The trees as flat maps ----

  ghost function FlatView(document: Option<Node>): FlatMap {
    imap path: Path | path != [] && Resolve(document, path).Some? :: Resolve(document, path).value
  }

  ghost function FlatReading(reading: Reading): Option<FlatMap> {
    if reading.Success? then Some(FlatView(reading.value)) else None
  }

  ghost function FlatLevels(levels: Levels): Flat {
    Flat(FlatReading(levels.team), FlatReading(levels.personal))
  }

  /** A document that is not a mapping resolves no path, so starting a write from nothing loses no scalar. */
  lemma WriteRootKeepsView(document: Option<Node>)
    ensures FlatView(Some(Section(WriteRoot(document)))) == FlatView(document)
  {
    var root := Some(Section(WriteRoot(document)));
    forall path: Path | path != [] ensures Resolve(root, path) == Resolve(document, path) {
    }
  }

  /** An accepted write is exactly one update of the flat map. */
  lemma InsertUpdatesView(entries: seq<Entry>, path: Path, value: string)
    requires path != [] && Insertion(entries, path, value).Success?
    ensures FlatView(Some(Section(Insertion(entries, path, value).value)))
         == FlatView(Some(Section(entries)))[path := String(value)]
  {
    forall q: Path | q != []
      ensures Resolve(Some(Section(Insertion(entries, path, value).value)), q)
           == if q == path then Some(String(value)) else Resolve(Some(Section(entries)), q)
    {
      ResolveAfterInsert(entries, path, value, q);
    }
  }

  lemma ExecuteRefines(levels: Levels, command: Command)
    ensures var (after, answer) := Execute(levels, command);
            FlatExecute(FlatLevels(levels), command, answer == Written(true)) == (FlatLevels(after), answer)
  {
    match command {
      case Get(key, scope) =>
      case Set(key, value, level, writable) =>
        if levels.Read(level).Success? {
          var document := levels.Read(level).value;
          var root := WriteRoot(document);
          WriteRootKeepsView(document);
          if Insertion(root, key, value).Success? {
            InsertUpdatesView(root, key, value);
          }
        }
    }
  }

  /**
  Over every run the two trees behave as two flat maps: the same answers, and the
  same maps at the end, with each accepted write one update at its level.
  */
  lemma {:induction false} RunRefinesFlatMaps(levels: Levels, commands: seq<Command>)
    ensures var (final, answers) := Run(levels, commands);
            |answers| == |commands| && FlatRun(FlatLevels(levels), commands, answers) == (FlatLevels(final), answers)
    decreases |commands|
  {
    if commands != [] {
      var (after, answer) := Execute(levels, commands[0]);
      ExecuteRefines(levels, commands[0]);
      RunRefinesFlatMaps(after, commands[1..]);
      var answers := Run(levels, commands).1;
      assert answers[1..] == Run(after, commands[1..]).1;
    }
  }

  // ---- When the flat maps alone decide ----

  ghost predicate IsDenseReading(reading: Reading) {
    reading.Success? && (reading.value.None? || (reading.value.value.Section? && IsDense(reading.value.value.entries)))
  }

  ghost predicate AreDense(levels: Levels) {
    IsDenseReading(levels.team) && IsDenseReading(levels.personal)
  }

  /** No path in the map is a proper prefix or a proper extension of the key. */
  ghost predicate FlatAllows(m: FlatMap, key: Path) {
    forall path: Path | path in m :: !(path < key) && !(key < path)
  }

  ghost function FlatRunAlone(flat: Flat, commands: seq<Command>): (Flat, seq<Answer>)
    decreases |commands|
  {
    if commands == [] then (flat, [])
    else
      var command := commands[0];
      var accepted := command.Set? && command.writable && flat.At(command.level).Some?
                      && FlatAllows(flat.At(command.level).value, command.key);
      var (after, answer) := FlatExecute(flat, command, accepted);
      var (final, rest) := FlatRunAlone(after, commands[1..]);
      (final, [answer] + rest)
  }

  lemma PrefixIsTake(p: Path, q: Path)
    ensures p < q ==> |p| < |q| && q[..|p|] == p
  {
  }

  lemma FlatAllowsIffFlatFree(entries: seq<Entry>, key: Path)
    requires key != []
    ensures FlatAllows(FlatView(Some(Section(entries))), key) <==> IsFlatFree(entries, key)
  {
    var document := Some(Section(entries));
    var m := FlatView(document);
    assert forall path: Path :: path in m <==> path != [] && Resolve(document, path).Some?;
    if FlatAllows(m, key) {
      forall k | 1 <= k < |key| ensures Resolve(document, key[..k]) == None {
        assert key[..k] < key;
        assert key[..k] !in m;
      }
      forall q: Path | key < q ensures Resolve(document, q) == None {
        assert q !in m;
      }
    }
    if IsFlatFree(entries, key) {
      forall path: Path | path in m ensures !(path < key) && !(key < path) {
        PrefixIsTake(path, key);
      }
    }
  }

  lemma ExecuteDense(levels: Levels, command: Command)
    requires AreDense(levels)
    ensures AreDense(Execute(levels, command).0)
    ensures command.Set? ==>
              (Execute(levels, command).1 == Written(true) <==>
                 command.writable && FlatAllows(FlatLevels(levels).At(command.level).value, command.key))
  {
    if command.Set? {
      var root := WriteRoot(levels.Read(command.level).value);
      WriteRootKeepsView(levels.Read(command.level).value);
      InsertSucceedsIff(root, command.key, command.value);
      DenseFreeIffFlatFree(root, command.key);
      FlatAllowsIffFlatFree(root, command.key);
      if Insertion(root, command.key, command.value).Success? {
        InsertKeepsDense(root, command.key, command.value);
      }
    }
  }

  /**
  Starting from documents without sequences and empty mappings, as a store built by
  writes alone is, the flat maps determine even which writes are accepted.
  */
  lemma {:induction false} DenseRunsAreFlat(levels: Levels, commands: seq<Command>)
    requires AreDense(levels)
    ensures var (final, answers) := Run(levels, commands);
            AreDense(final) && FlatRunAlone(FlatLevels(levels), commands) == (FlatLevels(final), answers)
    decreases |commands|
  {
    if commands != [] {
      ExecuteRefines(levels, commands[0]);
      ExecuteDense(levels, commands[0]);
      DenseRunsAreFlat(Execute(levels, commands[0]).0, commands[1..]);
    }
  }
}
