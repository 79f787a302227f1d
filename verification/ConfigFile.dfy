/**
One level's file: reading its document, writing a key into it, and the prompt
fragment its body contributes (cli/config-adapters/src/store.rs).
*/
module ConfigFile {
  import opened Wrappers
  import opened Text
  import opened ConfigTree
  import opened ConfigWrites
  import opened ConfigKey
  import opened ConfigService
  import opened ConfigRuns
  import opened Frontmatter
  import opened Document
  import opened Fragment
  import Paths

  /** A level's file: its content, or absent. */
  type File = Option<string>

  function ReadFile(yaml: Yaml, file: File): Reading {
    match file
    case None => Success(None)
    case Some(content) =>
      match ReadDocument(yaml, content)
      case Failure(detail) => Failure(Unreadable(detail))
      case Success(node) => Success(Some(node))
  }

  /** The document a write puts together: what was read, with the key inserted. */
  function Prepare(yaml: Yaml, file: File, key: Key, value: string): Result<Node, ConfigError> {
    match ReadFile(yaml, file)
    case Failure(error) => Failure(error)
    case Success(document) =>
      match Insertion(WriteRoot(document), key, value)
      case Failure(conflict) => Failure(PathConflict(key, conflict))
      case Success(updated) => Success(Section(updated))
  }

  /** The content a write leaves, when no other process touches the file. */
  function SetFile(yaml: Yaml, file: File, key: Key, value: string): Result<string, ConfigError> {
    match Prepare(yaml, file, key, value)
    case Failure(error) => Failure(error)
    case Success(document) =>
      match Render(yaml, file, document)
      case Failure(detail) => Failure(Unreadable(detail))
      case Success(content) => Success(content)
  }

  /** End to end: one key changes in the document that is read back, and the markdown body stays. */
  lemma SetThenRead(yaml: Yaml, file: File, key: Key, value: string)
    requires IsFaithful(yaml) && SetFile(yaml, file, key, value).Success?
    ensures var after := Some(SetFile(yaml, file, key, value).value);
            && ReadFile(yaml, after) == Success(Some(Prepare(yaml, file, key, value).value))
            && FlatReading(ReadFile(yaml, after)) == Some(FlatReading(ReadFile(yaml, file)).value[key := String(value)])
            && IsDocumentEdit(ReadFile(yaml, file).value, ReadFile(yaml, after).value.value, key, value)
            && ExistingBody(yaml, after) == ExistingBody(yaml, file)
  {
    var document := Prepare(yaml, file, key, value).value;
    RenderRoundTrips(yaml, file, document);
    var read := ReadFile(yaml, file).value;
    WriteRootKeepsView(read);
    InsertUpdatesView(WriteRoot(read), key, value);
    PreparedIsEdit(yaml, file, key, value);
  }

  /** What is put together is an edit of the document read, the only one of its kind. */
  lemma PreparedIsEdit(yaml: Yaml, file: File, key: Key, value: string)
    requires Prepare(yaml, file, key, value).Success?
    ensures ReadFile(yaml, file).Success?
    ensures IsDocumentEdit(ReadFile(yaml, file).value, Prepare(yaml, file, key, value).value, key, value)
  {
    InsertEdits(WriteRoot(ReadFile(yaml, file).value), key, value);
  }

  /** What can be read as frontmatter: nothing, a blank one, or what the library parses. */
  predicate IsWellFormed(yaml: Yaml, file: File) {
    file.Some? ==>
      && SplitOf(file.value).Success?
      && (IsBlank(SplitOf(file.value).value.frontmatter) || yaml.parse(SplitOf(file.value).value.frontmatter).Success?)
  }

  /** A write succeeds exactly on a well-formed file with the key's path free, if the library can emit the edit. */
  lemma SetSucceedsIff(yaml: Yaml, file: File, key: Key, value: string)
    ensures IsWellFormed(yaml, file) <==> ReadFile(yaml, file).Success?
    ensures SetFile(yaml, file, key, value).Success?
            <==> && IsWellFormed(yaml, file)
                 && (exists entries :: HasEntries(ReadFile(yaml, file).value, entries) && IsFree(entries, key))
                 && Prepare(yaml, file, key, value).Success?
                 && yaml.dump(ToParsed(Prepare(yaml, file, key, value).value)).Success?
  {
    if ReadFile(yaml, file).Success? {
      var document := ReadFile(yaml, file).value;
      var root := WriteRoot(document);
      assert HasEntries(document, root) && forall entries | HasEntries(document, entries) :: entries == root;
      InsertSucceedsIff(root, key, value);
    }
  }

  /**
  The store behind the service: a write through the file is the service's write on the documents
  read from the files.
  */
  lemma SetFileIsServiceWrite(yaml: Yaml, team: File, personal: File, key: Key, value: string, level: Level)
    requires IsFaithful(yaml)
    ensures var file := if level.Team? then team else personal;
            var levels := Levels(ReadFile(yaml, team), ReadFile(yaml, personal));
            var after := SetFile(yaml, file, key, value);
            var emits := Prepare(yaml, file, key, value).Success? ==>
              Emit(yaml, Prepare(yaml, file, key, value).value).Success?;
            var (levels', outcome) := Write(levels, key, value, level, emits);
            && (outcome.Pass? <==> after.Success?)
            && (after.Success? ==>
                  levels' == if level.Team? then levels.(team := ReadFile(yaml, Some(after.value)))
                             else levels.(personal := ReadFile(yaml, Some(after.value))))
            && (after.Failure? ==> levels' == levels)
  {
    var file := if level.Team? then team else personal;
    if SetFile(yaml, file, key, value).Success? {
      SetThenRead(yaml, file, key, value);
    }
  }

  // ---- The fragment ----

  /** The body a file contributes: what is below the fences when they hold a mapping, else the whole file. */
  function FragmentBody(yaml: Yaml, file: File): Result<File, ConfigError> {
    match file
    case None => Success(None)
    case Some(content) =>
      match SplitOf(content)
      case Failure(detail) => Failure(Unreadable(detail))
      case Success(split) =>
        match ParseFrontmatter(yaml, split.frontmatter)
        case Success(Section(_)) => Success(Some(split.body))
        case _ => Success(Some(content))
  }

  /** The path of a level's file below the project's root. */
  function RelativePath(level: Level): string {
    Paths.Spelled(Paths.ConfigPath([], level))[1..]
  }

  function LevelRead(yaml: Yaml, path: string, file: File): Result<LevelBody, ConfigError> {
    match FragmentBody(yaml, file)
    case Failure(error) => Failure(error)
    case Success(body) => Success(LevelBody(path, body))
  }

  /** The project context assembled from the two files. */
  function ProjectContext(yaml: Yaml, team: File, personal: File): Result<Assembly, ConfigError> {
    Assemble(LevelRead(yaml, RelativePath(Team), team), LevelRead(yaml, RelativePath(Personal), personal))
  }

  /** Absent, without frontmatter, or with a mapping as frontmatter. */
  predicate HasMappingOrNothing(yaml: Yaml, file: File) {
    ReadFile(yaml, file).Success? && (ReadFile(yaml, file).value.None? || ReadFile(yaml, file).value.value.Section?)
  }

  /** A longer trimmed text at a level always shows in the combination. */
  lemma CombineSeesLength(a: string, b: string, other: string)
    requires |Trimmed(a)| != |Trimmed(b)|
    ensures Combine(a, other) != Combine(b, other) && Combine(other, a) != Combine(other, b)
  {
    var la, lb := |Trimmed(a)|, |Trimmed(b)|;
    assert CombinedLength(Combine(a, other)) == Widths(la, |Trimmed(other)|);
    assert CombinedLength(Combine(b, other)) == Widths(lb, |Trimmed(other)|);
    assert CombinedLength(Combine(other, a)) == Widths(|Trimmed(other)|, la);
    assert CombinedLength(Combine(other, b)) == Widths(|Trimmed(other)|, lb);
  }

  function CombinedLength(combined: Option<string>): nat {
    match combined case Some(text) => |text| case None => 0
  }

  function Widths(t: nat, p: nat): nat {
    if t > 0 && p > 0 then t + 2 + p else t + p
  }

  /** Text in front makes the trimmed text longer. */
  lemma TrimmedGrows(lines: seq<string>, n: nat)
    requires 0 < n <= |lines| && HasText(lines[0]) && lines[0] != ""
    ensures |TrimmedLines(lines)| > |TrimmedLines(lines[n..])|
  {
    var tail := lines[n..];
    var f, e := FirstText(tail), EndOfText(tail);
    TextIsWithin(lines, 0);
    if f < e {
      BoundsIff(tail, f, e);
      BoundsOfTail(lines, n, f, e);
      BoundsIff(lines, 0, n + e);
      LongerFront(lines, n, f, e);
    } else {
      ContentIsShown(lines, EndOfText(lines));
    }
  }

  lemma ContentIsShown(lines: seq<string>, e: nat)
    requires FirstText(lines) < e == EndOfText(lines) && HasText(lines[e - 1])
    ensures TrimmedLines(lines) != ""
  {
    assert Content(lines[e - 1]) != "";
  }

  lemma GapOfTail(lines: seq<string>, n: nat, e: nat)
    requires n <= |lines| && IsGap(lines[n..], e, |lines| - n)
    ensures IsGap(lines, n + e, |lines|)
  {
    forall i | n + e <= i < |lines| ensures !HasText(lines[i]) {
      assert lines[i] == lines[n..][i - n];
    }
  }

  lemma BoundsOfTail(lines: seq<string>, n: nat, f: nat, e: nat)
    requires 0 < n <= |lines| && HasText(lines[0]) && AreBounds(lines[n..], f, e)
    ensures AreBounds(lines, 0, n + e)
  {
    var tail := lines[n..];
    GapOfTail(lines, n, e);
    var last := tail[e - 1];
    assert HasText(last) && lines[n + e - 1] == last;
  }

  lemma LongerFront(lines: seq<string>, n: nat, f: nat, e: nat)
    requires 0 < n && f < e && n + e <= |lines| && lines[0] != ""
    ensures |Between(lines, 0, n + e)| > |Between(lines[n..], f, e)|
  {
    var front, middle := lines[..n + f], lines[n..][f..e - 1];
    assert lines[0..n + e - 1] == front + middle;
    JoinAppend(front, middle);
    assert front[0] == lines[0];
  }

  lemma FenceHasText(line: string)
    requires IsFence(line)
    ensures HasText(line) && line != ""
  {
    assert Content(line)[0] == '-';
  }

  lemma BodyIsTail(content: string, lines: seq<string>) returns (n: nat)
    requires lines != [] && IsFence(lines[0]) && SplitLines(content, lines).Success?
    ensures 0 < n <= |lines| && SplitLines(content, lines).value.body == Join(lines[n..])
  {
    n := 1 + FirstFence(lines[1..]) + 1;
  }

  /** A file whose frontmatter is not a mapping contributes strictly more text than its body alone. */
  lemma FencesShow(content: string)
    requires OpensFrontmatter(content) && SplitOf(content).Success?
    ensures |Trimmed(content)| > |Trimmed(SplitOf(content).value.body)|
  {
    LinesPartition(content);
    FencesShowInLines(content, Lines(content));
  }

  lemma FencesShowInLines(content: string, lines: seq<string>)
    requires AreLines(lines) && lines != [] && IsFence(lines[0]) && SplitLines(content, lines).Success?
    ensures |TrimmedLines(lines)| > |TrimmedLines(Lines(SplitLines(content, lines).value.body))|
  {
    var n := BodyIsTail(content, lines);
    PartOfLines(lines, n, |lines|);
    assert lines[n..|lines|] == lines[n..];
    FenceHasText(lines[0]);
    TrimmedGrows(lines, n);
  }

  /** The text a level's file contributes to the assembly. */
  function TextOf(yaml: Yaml, file: File): string {
    match FragmentBody(yaml, file)
    case Success(Some(text)) => text
    case _ => ""
  }

  /** After a write the level contributes the body that was below the fences. */
  lemma FragmentAfterSet(yaml: Yaml, file: File, key: Key, value: string)
    requires IsFaithful(yaml) && SetFile(yaml, file, key, value).Success?
    ensures var after := Some(SetFile(yaml, file, key, value).value);
            && ExistingBody(yaml, file).Success?
            && FragmentBody(yaml, after) == Success(Some(ExistingBody(yaml, file).value))
            && HasMappingOrNothing(yaml, after)
    ensures FragmentBody(yaml, file).Success?
    ensures HasMappingOrNothing(yaml, file) ==> TextOf(yaml, file) == ExistingBody(yaml, file).value
    ensures !HasMappingOrNothing(yaml, file) ==>
              && file.Some? && OpensFrontmatter(file.value) && TextOf(yaml, file) == file.value
              && SplitOf(file.value).Success? && SplitOf(file.value).value.body == ExistingBody(yaml, file).value
  {
    var document := Prepare(yaml, file, key, value).value;
    SplitInvertsRender(yaml, file, document);
    EmittedParses(yaml, document);
  }

  /**
  A successful write leaves what its level contributes to the project context exactly
  as it was if and only if the file was absent or its frontmatter was blank, missing or
  a mapping; a scalar or a sequence there counted as body and is lost.
  */
  lemma FragmentUnchangedIff(yaml: Yaml, file: File, key: Key, value: string, other: string)
    requires IsFaithful(yaml) && SetFile(yaml, file, key, value).Success?
    ensures var before := TextOf(yaml, file);
            var after := TextOf(yaml, Some(SetFile(yaml, file, key, value).value));
            && (HasMappingOrNothing(yaml, file) <==> before == after)
            && (before == after <==> Combine(before, other) == Combine(after, other))
            && (before == after <==> Combine(other, before) == Combine(other, after))
  {
    FragmentAfterSet(yaml, file, key, value);
    var body := ExistingBody(yaml, file).value;
    if !HasMappingOrNothing(yaml, file) {
      FencesShow(file.value);
      CombineSeesLength(file.value, body, other);
    }
  }

  // ---- Runs of writes ----

  datatype SetRequest = SetRequest(key: Key, value: string, level: Level)

  datatype Files = Files(team: File, personal: File)

  /** One attempted write; a refused one changes nothing. */
  function Apply(yaml: Yaml, files: Files, write: SetRequest): Files {
    match write.level
    case Team =>
      (match SetFile(yaml, files.team, write.key, write.value)
       case Success(content) => files.(team := Some(content))
       case Failure(_) => files)
    case Personal =>
      (match SetFile(yaml, files.personal, write.key, write.value)
       case Success(content) => files.(personal := Some(content))
       case Failure(_) => files)
  }

  function ApplyAll(yaml: Yaml, files: Files, writes: seq<SetRequest>): Files
    decreases |writes|
  {
    if writes == [] then files else ApplyAll(yaml, Apply(yaml, files, writes[0]), writes[1..])
  }

  /** Some write of the run at this level is accepted. */
  predicate SomeSetSucceeds(yaml: Yaml, files: Files, writes: seq<SetRequest>, level: Level)
    decreases |writes|
  {
    writes != []
    && (IsAccepted(yaml, files, writes[0], level)
        || SomeSetSucceeds(yaml, Apply(yaml, files, writes[0]), writes[1..], level))
  }

  predicate IsAccepted(yaml: Yaml, files: Files, write: SetRequest, level: Level) {
    var file := if level.Team? then files.team else files.personal;
    write.level == level && SetFile(yaml, file, write.key, write.value).Success?
  }

  /** The same contribution, but that a level written to is discovered. */
  predicate SameContribution(was: Contribution, now: Contribution, written: bool) {
    && was.level == now.level && was.path == now.path && was.hasBody == now.hasBody
    && (now.discovered <==> was.discovered || written)
  }

  lemma FragmentBodyKept(yaml: Yaml, file: File, key: Key, value: string)
    requires IsFaithful(yaml) && HasMappingOrNothing(yaml, file) && SetFile(yaml, file, key, value).Success?
    ensures var after := Some(SetFile(yaml, file, key, value).value);
            && HasMappingOrNothing(yaml, after)
            && FragmentBody(yaml, file).Success? && FragmentBody(yaml, after).Success?
            && FragmentBody(yaml, after).value == Some(TextOf(yaml, file))
  {
    FragmentAfterSet(yaml, file, key, value);
  }

  /** One write, accepted or not. */
  lemma SetKeepsProjectContext(yaml: Yaml, files: Files, write: SetRequest)
    requires IsFaithful(yaml) && HasMappingOrNothing(yaml, files.team) && HasMappingOrNothing(yaml, files.personal)
    ensures var after := Apply(yaml, files, write);
            var was := ProjectContext(yaml, files.team, files.personal);
            var now := ProjectContext(yaml, after.team, after.personal);
            && HasMappingOrNothing(yaml, after.team) && HasMappingOrNothing(yaml, after.personal)
            && was.Success? && now.Success? && now.value.fragment == was.value.fragment
            && SameContribution(was.value.team, now.value.team, IsAccepted(yaml, files, write, Team))
            && SameContribution(was.value.personal, now.value.personal, IsAccepted(yaml, files, write, Personal))
  {
    var file := if write.level.Team? then files.team else files.personal;
    if SetFile(yaml, file, write.key, write.value).Success? {
      FragmentBodyKept(yaml, file, write.key, write.value);
    }
  }

  /**
  Any run of writes leaves the project context as it was; a file the run creates is discovered but
  contributes nothing.
  */
  lemma {:induction false} RunKeepsProjectContext(yaml: Yaml, files: Files, writes: seq<SetRequest>)
    requires IsFaithful(yaml) && HasMappingOrNothing(yaml, files.team) && HasMappingOrNothing(yaml, files.personal)
    ensures var after := ApplyAll(yaml, files, writes);
            var was := ProjectContext(yaml, files.team, files.personal);
            var now := ProjectContext(yaml, after.team, after.personal);
            && was.Success? && now.Success? && now.value.fragment == was.value.fragment
            && SameContribution(was.value.team, now.value.team, SomeSetSucceeds(yaml, files, writes, Team))
            && SameContribution(was.value.personal, now.value.personal, SomeSetSucceeds(yaml, files, writes, Personal))
    decreases |writes|
  {
    if writes != [] {
      SetKeepsProjectContext(yaml, files, writes[0]);
      RunKeepsProjectContext(yaml, Apply(yaml, files, writes[0]), writes[1..]);
    }
  }

  // ---- What a file is to its readers ----

  /**
  A file that does not begin with a fence is all body, and so is what follows the fences when
  they hold nothing or a mapping; a scalar or a sequence between them makes the whole file body.
  */
  lemma TextIs(yaml: Yaml, content: string)
    ensures FragmentBody(yaml, Some(content)).Failure? <==> SplitOf(content).Failure?
    ensures !BeginsWithFence(content) ==> TextOf(yaml, Some(content)) == content
    ensures BeginsWithFence(content) && SplitOf(content).Success? ==>
              TextOf(yaml, Some(content))
              == if HoldsNothingOrMap(yaml, SplitOf(content).value.frontmatter) then SplitOf(content).value.body
                 else content
  {
    PlainContentIsBody(content);
  }

  predicate HoldsNothingOrMap(yaml: Yaml, frontmatter: string) {
    var parsed := yaml.parse(frontmatter);
    IsBlank(frontmatter) || (parsed.Success? && parsed.value.Map?)
  }

  /**
  A file without frontmatter, or with a blank one, reads as an empty mapping; otherwise every
  path reads as the very scalar the library parsed there.
  */
  lemma DocumentIs(yaml: Yaml, content: string, path: Path)
    ensures !BeginsWithFence(content) ==> ReadFile(yaml, Some(content)) == Success(Some(Section([])))
    ensures SplitOf(content).Failure? ==> ReadFile(yaml, Some(content)).Failure?
    ensures BeginsWithFence(content) && SplitOf(content).Success? ==>
              ReadsBetween(yaml, SplitOf(content).value.frontmatter, ReadFile(yaml, Some(content)), path)
  {
    PlainContentIsBody(content);
    if SplitOf(content).Success? {
      var parsed := yaml.parse(SplitOf(content).value.frontmatter);
      if parsed.Success? {
        ScalarsAreRead(parsed.value, path);
      }
    }
  }

  /** What is read when this stands between the fences. */
  predicate ReadsBetween(yaml: Yaml, frontmatter: string, reading: Reading, path: Path) {
    if IsBlank(frontmatter) then reading == Success(Some(Section([])))
    else if yaml.parse(frontmatter).Failure? then reading.Failure?
    else reading.Success? && Resolve(reading.value, path) == ScalarAt(yaml.parse(frontmatter).value, path)
  }

  /**
  A write puts two fences with the emitted text in front of the old body, which is a tail of the
  old file: all of it when that did not begin with a fence.
  */
  lemma SetKeepsTheTail(yaml: Yaml, content: string, key: Key, value: string) returns (text: string, n: nat)
    requires SetFile(yaml, Some(content), key, value).Success?
    ensures n <= |content| && (!BeginsWithFence(content) <==> n == 0)
    ensures SetFile(yaml, Some(content), key, value).value == "---\n" + text + "---\n" + content[n..]
    ensures yaml.dump(ToParsed(Prepare(yaml, Some(content), key, value).value)).Success?
    ensures text == CloseLine(yaml.dump(ToParsed(Prepare(yaml, Some(content), key, value).value)).value)
  {
    text := Emit(yaml, Prepare(yaml, Some(content), key, value).value).value;
    PlainContentIsBody(content);
    n := 0;
    if BeginsWithFence(content) {
      OpensIff(content);
      var opening, closing := SplitLosesNothing(content);
      n := |opening + SplitOf(content).value.frontmatter + closing|;
    }
  }

  /** A plain markdown file keeps all of its text through a write, in the file and in the fragment. */
  lemma PlainFileKeepsItsText(yaml: Yaml, content: string, key: Key, value: string)
    requires IsFaithful(yaml) && SetFile(yaml, Some(content), key, value).Success? && !BeginsWithFence(content)
    ensures var after := SetFile(yaml, Some(content), key, value).value;
            && |content| <= |after| && after[|after| - |content|..] == content
            && TextOf(yaml, Some(content)) == content && TextOf(yaml, Some(after)) == content
  {
    var text, n := SetKeepsTheTail(yaml, content, key, value);
    TextIs(yaml, content);
    DocumentIs(yaml, content, []);
    FragmentUnchangedIff(yaml, Some(content), key, value, "");
  }

  // ---- What the assembly reports of the two files ----

  lemma RelativePathIs(level: Level)
    ensures RelativePath(level) == ".luminosity/config" + (if level.Personal? then ".local.md" else ".md")
  {
    var local := if level.Personal? then ".local.md" else ".md";
    Paths.FragmentPathSpelled([], Paths.FragmentSource.ProjectContext, level);
    WithoutSlash(local);
  }

  lemma WithoutSlash(local: string)
    ensures ("/.luminosity" + ("/" + ("config" + local)))[1..] == ".luminosity/config" + local
  {
    assert "/.luminosity/config"[1..] == ".luminosity/config" && "/.luminosity" + "/config" == "/.luminosity/config";
    assert "/.luminosity" + ("/" + ("config" + local)) == "/.luminosity/config" + local;
  }

  /**
  The project context of two files: the first unreadable one fails it, the team's first;
  otherwise each level is reported under its own path, discovered when its file is there, with
  a body when its text is not blank, and the texts stand trimmed in the fragment, team first.
  */
  lemma ContextReports(yaml: Yaml, team: File, personal: File)
    ensures match ProjectContext(yaml, team, personal)
            case Failure(error) =>
              if FragmentBody(yaml, team).Failure? then error == FragmentBody(yaml, team).error
              else FragmentBody(yaml, personal) == Failure(error)
            case Success(a) =>
              var t, p := TextOf(yaml, team), TextOf(yaml, personal);
              && FragmentBody(yaml, team).Success? && FragmentBody(yaml, personal).Success?
              && a.team == Contribution(Team, ".luminosity/config" + ".md", team.Some?, !IsBlank(t))
              && a.personal == Contribution(Personal, ".luminosity/config" + ".local.md", personal.Some?, !IsBlank(p))
              && a.fragment == if IsBlank(t) && IsBlank(p) then None
                               else if IsBlank(p) then Some(Trimmed(t))
                               else if IsBlank(t) then Some(Trimmed(p))
                               else Some(Trimmed(t) + "\n\n" + Trimmed(p))
  {
    RelativePathIs(Team);
    RelativePathIs(Personal);
    TrimmedEmptyIff(TextOf(yaml, team));
    TrimmedEmptyIff(TextOf(yaml, personal));
    TrimmedEmptyIff("");
  }
}
