/**
The frontmatter as a document: the YAML boundary, and rendering a document back
over an existing file (cli/config-adapters/src/document.rs).
*/
module Document {
  import opened Wrappers
  import opened Text
  import opened ConfigTree
  import opened Frontmatter

  /** The YAML library's side of the boundary. */
  datatype Parsed =
    | Null | Bool(flag: bool) | Int(number: int) | Float(amount: real) | Str(text: string)
    | Seq(items: seq<Parsed>) | Map(entries: seq<ParsedEntry>)

  datatype ParsedEntry = ParsedEntry(name: string, value: Parsed)

  function ToNode(parsed: Parsed): Node {
    match parsed
    case Null => Leaf(Scalar.Null)
    case Bool(value) => Leaf(Scalar.Bool(value))
    case Int(value) => Leaf(Scalar.Int(value))
    case Float(value) => Leaf(Scalar.Float(value))
    case Str(value) => Leaf(String(value))
    case Seq(items) => Sequence(ToNodes(items))
    case Map(entries) => Section(ToEntries(entries))
  }

  function ToNodes(items: seq<Parsed>): seq<Node> {
    if items == [] then [] else [ToNode(items[0])] + ToNodes(items[1..])
  }

  function ToEntries(entries: seq<ParsedEntry>): seq<Entry> {
    if entries == [] then [] else [Entry(entries[0].name, ToNode(entries[0].value))] + ToEntries(entries[1..])
  }

  function ToParsed(node: Node): Parsed {
    match node
    case Leaf(Null) => Parsed.Null
    case Leaf(Bool(value)) => Parsed.Bool(value)
    case Leaf(Int(value)) => Parsed.Int(value)
    case Leaf(Float(value)) => Parsed.Float(value)
    case Leaf(String(value)) => Str(value)
    case Sequence(items) => Seq(ToParsedItems(items))
    case Section(entries) => Map(ToParsedEntries(entries))
  }

  function ToParsedItems(items: seq<Node>): seq<Parsed> {
    if items == [] then [] else [ToParsed(items[0])] + ToParsedItems(items[1..])
  }

  function ToParsedEntries(entries: seq<Entry>): seq<ParsedEntry> {
    if entries == [] then []
    else [ParsedEntry(entries[0].key, ToParsed(entries[0].node))] + ToParsedEntries(entries[1..])
  }

  /** Types, order and keys all survive the boundary. */
  lemma {:induction false} NodeSurvives(node: Node)
    ensures ToNode(ToParsed(node)) == node
    decreases node
  {
    match node {
      case Leaf(_) =>
      case Sequence(items) => ItemsSurvive(items);
      case Section(entries) => EntriesSurvive(entries);
    }
  }

  lemma {:induction false} ItemsSurvive(items: seq<Node>)
    ensures ToNodes(ToParsedItems(items)) == items
    decreases items
  {
    if items != [] {
      NodeSurvives(items[0]);
      ItemsSurvive(items[1..]);
      assert ToParsedItems(items)[1..] == ToParsedItems(items[1..]);
    }
  }

  lemma {:induction false} EntriesSurvive(entries: seq<Entry>)
    ensures ToEntries(ToParsedEntries(entries)) == entries
    decreases entries
  {
    if entries != [] {
      assert entries[0].node < entries[0];
      NodeSurvives(entries[0].node);
      EntriesSurvive(entries[1..]);
      assert ToParsedEntries(entries)[1..] == ToParsedEntries(entries[1..]);
    }
  }

  lemma {:induction false} ParsedSurvives(parsed: Parsed)
    ensures ToParsed(ToNode(parsed)) == parsed
    decreases parsed
  {
    match parsed {
      case Seq(items) => ParsedItemsSurvive(items);
      case Map(entries) => ParsedEntriesSurvive(entries);
      case _ =>
    }
  }

  lemma {:induction false} ParsedItemsSurvive(items: seq<Parsed>)
    ensures ToParsedItems(ToNodes(items)) == items
    decreases items
  {
    if items != [] {
      ParsedSurvives(items[0]);
      ParsedItemsSurvive(items[1..]);
      assert ToNodes(items)[1..] == ToNodes(items[1..]);
    }
  }

  lemma {:induction false} ParsedEntriesSurvive(entries: seq<ParsedEntry>)
    ensures ToParsedEntries(ToEntries(entries)) == entries
    decreases entries
  {
    if entries != [] {
      assert entries[0].value < entries[0];
      ParsedSurvives(entries[0].value);
      ParsedEntriesSurvive(entries[1..]);
      assert ToEntries(entries)[1..] == ToEntries(entries[1..]);
    }
  }

  /** The YAML library, kept abstract. */
  datatype Yaml = Yaml(parse: string -> Result<Parsed, string>, dump: Parsed -> Result<string, string>)

  function CloseLine(text: string): string {
    if EndsInLf(text) then text else text + "\n"
  }

  /**
  What is asked of the library: whatever it writes is not blank, has no line that reads as
  a fence, and parses back to the value written.
  */
  ghost predicate IsFaithful(yaml: Yaml) {
    forall value: Parsed | yaml.dump(value).Success? ::
      var text := CloseLine(yaml.dump(value).value);
      !IsBlank(text) && IsFenceFree(text) && yaml.parse(text) == Success(value)
  }

  function ParseFrontmatter(yaml: Yaml, frontmatter: string): Result<Node, string> {
    if IsBlank(frontmatter) then Success(Section([]))
    else
      match yaml.parse(frontmatter)
      case Failure(detail) => Failure(detail)
      case Success(parsed) => Success(ToNode(parsed))
  }

  function Emit(yaml: Yaml, document: Node): Result<string, string> {
    match yaml.dump(ToParsed(document))
    case Failure(detail) => Failure(detail)
    case Success(text) => Success(CloseLine(text))
  }

  /** The body of a file whose frontmatter is well formed. */
  function PreservedBody(yaml: Yaml, content: string): Result<string, string> {
    match SplitOf(content)
    case Failure(detail) => Failure(detail)
    case Success(split) =>
      match ParseFrontmatter(yaml, split.frontmatter)
      case Failure(detail) => Failure(detail)
      case Success(_) => Success(split.body)
  }

  /** The document a file holds. */
  function ReadDocument(yaml: Yaml, content: string): Result<Node, string> {
    match SplitOf(content)
    case Failure(detail) => Failure(detail)
    case Success(split) => ParseFrontmatter(yaml, split.frontmatter)
  }

  function ExistingBody(yaml: Yaml, existing: Option<string>): Result<string, string> {
    match existing
    case None => Success("")
    case Some(content) => PreservedBody(yaml, content)
  }

  const FENCE := "---\n"

  /** The new file content: the document as frontmatter over the existing file's body. */
  function Render(yaml: Yaml, existing: Option<string>, document: Node): Result<string, string> {
    match ExistingBody(yaml, existing)
    case Failure(detail) => Failure(detail)
    case Success(body) =>
      match Emit(yaml, document)
      case Failure(detail) => Failure(detail)
      case Success(text) => Success(FENCE + text + FENCE + body)
  }

  lemma EmittedParses(yaml: Yaml, document: Node)
    requires IsFaithful(yaml) && Emit(yaml, document).Success?
    ensures var text := Emit(yaml, document).value;
            IsFenceFree(text) && ParseFrontmatter(yaml, text) == Success(document)
  {
    NodeSurvives(document);
  }

  lemma FenceIsClosed()
    ensures IsFence(FENCE) && IsClosedLine(FENCE)
  {
    assert FENCE[..3] == "---";
  }

  /** The splitter inverts the renderer: exactly the emitted text and the previous body. */
  lemma SplitInvertsRender(yaml: Yaml, existing: Option<string>, document: Node)
    requires IsFaithful(yaml) && Render(yaml, existing, document).Success?
    ensures SplitOf(Render(yaml, existing, document).value)
         == Success(Split(Emit(yaml, document).value, ExistingBody(yaml, existing).value))
  {
    EmittedParses(yaml, document);
    FenceIsClosed();
    SplitUnique(FENCE, Emit(yaml, document).value, FENCE, ExistingBody(yaml, existing).value);
  }

  /** Reading back a rendering gives the document and keeps the body; rendering over it again changes nothing. */
  lemma RenderRoundTrips(yaml: Yaml, existing: Option<string>, document: Node)
    requires IsFaithful(yaml) && Render(yaml, existing, document).Success?
    ensures var rendered := Render(yaml, existing, document).value;
            && ReadDocument(yaml, rendered) == Success(document)
            && PreservedBody(yaml, rendered) == ExistingBody(yaml, existing)
            && Render(yaml, Some(rendered), document) == Success(rendered)
  {
    SplitInvertsRender(yaml, existing, document);
    EmittedParses(yaml, document);
  }

  // ---- Reading the library's values ----

  /** What the library's value holds at a path, the first of several equal names counting. */
  function ParsedAt(parsed: Parsed, path: Path): Option<Parsed>
    decreases |path|
  {
    if path == [] then Some(parsed)
    else if !parsed.Map? then None
    else
      match FirstNamed(parsed.entries, path[0])
      case None => None
      case Some(value) => ParsedAt(value, path[1..])
  }

  function FirstNamed(entries: seq<ParsedEntry>, name: string): Option<Parsed> {
    if entries == [] then None
    else if entries[0].name == name then Some(entries[0].value)
    else FirstNamed(entries[1..], name)
  }

  lemma {:induction false} FirstNamedIsGot(entries: seq<ParsedEntry>, name: string)
    ensures Get(ToEntries(entries), name)
         == if FirstNamed(entries, name).Some? then Some(ToNode(FirstNamed(entries, name).value)) else None
  {
    if entries != [] {
      FirstNamedIsGot(entries[1..], name);
      assert ToEntries(entries)[1..] == ToEntries(entries[1..]);
    }
  }

  lemma {:induction false} ParsedIsRead(parsed: Parsed, path: Path)
    ensures NodeAt(ToNode(parsed), path)
         == if ParsedAt(parsed, path).Some? then Some(ToNode(ParsedAt(parsed, path).value)) else None
    decreases |path|
  {
    if path != [] && parsed.Map? {
      FirstNamedIsGot(parsed.entries, path[0]);
      var child := FirstNamed(parsed.entries, path[0]);
      if child.Some? {
        ParsedIsRead(child.value, path[1..]);
      }
    }
  }

  function ScalarAt(parsed: Parsed, path: Path): Option<Scalar> {
    match ParsedAt(parsed, path)
    case Some(Null) => Some(Scalar.Null)
    case Some(Bool(flag)) => Some(Scalar.Bool(flag))
    case Some(Int(number)) => Some(Scalar.Int(number))
    case Some(Float(amount)) => Some(Scalar.Float(amount))
    case Some(Str(text)) => Some(String(text))
    case _ => None
  }

  /** Every path of the document reads as the very scalar the library parsed there, of the same kind. */
  lemma ScalarsAreRead(parsed: Parsed, path: Path)
    ensures Resolve(Some(ToNode(parsed)), path) == ScalarAt(parsed, path)
  {
    ParsedIsRead(parsed, path);
  }
}
