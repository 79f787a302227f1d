/**
Configuration documents as values: looking a path up, writing a string at a path, and
when such a write succeeds (cli/config/src/node.rs, cli/config/src/service.rs).
*/
module ConfigTree {
  import opened Wrappers

  datatype Scalar = String(text: string) | Bool(flag: bool) | Int(number: int) | Float(amount: real) | Null

  datatype Node = Leaf(scalar: Scalar) | Sequence(items: seq<Node>) | Section(entries: seq<Entry>)

  /** A mapping is a list of entries; nothing stops a key from occurring twice. */
  datatype Entry = Entry(key: string, node: Node)

  type Path = seq<string>

  /** What a blocked write found in its way. */
  datatype Existing = ExistingValue | ExistingSection

  datatype Conflict = Conflict(at: string, existing: Existing)

  /** Position of the first entry with this key, or the number of entries. */
  function IndexOf(entries: seq<Entry>, key: string): (i: nat)
    ensures i <= |entries|
    ensures i < |entries| ==> entries[i].key == key
    ensures forall j | 0 <= j < i :: entries[j].key != key
  {
    if entries == [] || entries[0].key == key then 0 else 1 + IndexOf(entries[1..], key)
  }

  lemma IndexOfUnique(entries: seq<Entry>, key: string, i: nat)
    requires i <= |entries| && (i < |entries| ==> entries[i].key == key)
    requires forall j | 0 <= j < i :: entries[j].key != key
    ensures IndexOf(entries, key) == i
  {
  }

  function Get(entries: seq<Entry>, key: string): Option<Node> {
    var i := IndexOf(entries, key);
    if i < |entries| then Some(entries[i].node) else None
  }

  /** Replace in place, or append. */
  function Upsert(entries: seq<Entry>, key: string, node: Node): seq<Entry> {
    var i := IndexOf(entries, key);
    if i < |entries| then entries[i := Entry(key, node)] else entries + [Entry(key, node)]
  }

  /** The node a path names. */
  function NodeAt(node: Node, path: Path): Option<Node>
    decreases |path|
  {
    if path == [] then Some(node)
    else if !node.Section? then None
    else
      match Get(node.entries, path[0])
      case None => None
      case Some(child) => NodeAt(child, path[1..])
  }

  lemma NodeAtOne(entries: seq<Entry>, path: Path)
    requires |path| == 1
    ensures NodeAt(Section(entries), path) == Get(entries, path[0])
  {
    assert path[1..] == [];
  }

  /** A path resolves when it names a scalar. */
  function Resolve(document: Option<Node>, path: Path): Option<Scalar> {
    match document
    case None => None
    case Some(node) =>
      match NodeAt(node, path)
      case Some(Leaf(scalar)) => Some(scalar)
      case _ => None
  }

  /** The outcome of writing the string `value` at `path`, on values. */
  function Insertion(entries: seq<Entry>, path: Path, value: string): Result<seq<Entry>, Conflict>
    decreases |path|
  {
    if path == [] then Success(entries)
    else
      var head := path[0];
      var existing := Get(entries, head);
      if |path| == 1 then
        if existing.Some? && !existing.value.Leaf?
        then Failure(Conflict(head, ExistingSection))
        else Success(Upsert(entries, head, Leaf(String(value))))
      else if existing.Some? && !existing.value.Section? then Failure(Conflict(head, ExistingValue))
      else
        var section := if existing.Some? then existing.value.entries else [];
        match Insertion(section, path[1..], value)
        case Failure(conflict) => Failure(conflict)
        case Success(inner) => Success(Upsert(entries, head, Section(inner)))
  }

  lemma UpsertGet(entries: seq<Entry>, key: string, node: Node, other: string)
    ensures Get(Upsert(entries, key, node), other) == if other == key then Some(node) else Get(entries, other)
  {
    var i := IndexOf(entries, key);
    var updated := Upsert(entries, key, node);
    if other == key {
      IndexOfUnique(updated, key, i);
    } else {
      var j := IndexOf(entries, other);
      if j < |entries| || i < |entries| {
        IndexOfUnique(updated, other, j);
      } else {
        IndexOfUnique(updated, other, |updated|);
      }
    }
  }

  /** Writing into nothing never conflicts. */
  lemma {:induction false} InsertIntoEmpty(path: Path, value: string)
    ensures Insertion([], path, value).Success?
    decreases |path|
  {
    if |path| > 1 {
      InsertIntoEmpty(path[1..], value);
    }
  }

  // ---- When a write succeeds, and what the first thing in its way is ----

  predicate Blocks(node: Option<Node>, isLast: bool) {
    node.Some? && if isLast then !node.value.Leaf? else !node.value.Section?
  }

  /** No proper prefix of the path names a scalar or a sequence, and the path itself names no mapping or sequence. */
  ghost predicate IsFree(entries: seq<Entry>, path: Path) {
    forall k | 1 <= k <= |path| :: !Blocks(NodeAt(Section(entries), path[..k]), k == |path|)
  }

  lemma NodeAtPrefix(entries: seq<Entry>, path: Path, k: nat, child: Node)
    requires 1 <= k <= |path|
    requires Get(entries, path[0]) == Some(child)
    ensures NodeAt(Section(entries), path[..k]) == NodeAt(child, path[1..][..k - 1])
  {
    assert path[..k][1..] == path[1..][..k - 1];
  }

  /** The shortest blocking prefix decides the error: its last segment, and which kind of thing stands there. */
  lemma {:induction false} FirstConflict(entries: seq<Entry>, path: Path, value: string, k: nat)
    requires 1 <= k <= |path| && Blocks(NodeAt(Section(entries), path[..k]), k == |path|)
    requires forall j | 1 <= j < k :: !Blocks(NodeAt(Section(entries), path[..j]), j == |path|)
    ensures Insertion(entries, path, value)
         == Failure(Conflict(path[k - 1], if k == |path| then ExistingSection else ExistingValue))
    decreases |path|
  {
    var existing := Get(entries, path[0]);
    NodeAtOne(entries, path[..1]);
    if k > 1 {
      assert path[..k][0] == path[0];
      assert !Blocks(NodeAt(Section(entries), path[..1]), 1 == |path|);
      var child := existing.value;
      forall j | 1 <= j <= k ensures NodeAt(Section(entries), path[..j]) == NodeAt(child, path[1..][..j - 1]) {
        NodeAtPrefix(entries, path, j, child);
      }
      forall j | 1 <= j < k - 1 ensures !Blocks(NodeAt(child, path[1..][..j]), j == |path[1..]|) {
        assert !Blocks(NodeAt(Section(entries), path[..j + 1]), j + 1 == |path|);
      }
      FirstConflict(child.entries, path[1..], value, k - 1);
    }
  }

  /** A write succeeds exactly on a free path. */
  lemma {:induction false} InsertSucceedsIff(entries: seq<Entry>, path: Path, value: string)
    ensures Insertion(entries, path, value).Success? <==> IsFree(entries, path)
    decreases |path|
  {
    if path != [] {
      var existing := Get(entries, path[0]);
      NodeAtOne(entries, path[..1]);
      var isLast := |path| == 1;
      if existing.None? {
        forall k | 1 <= k <= |path| ensures NodeAt(Section(entries), path[..k]) == None {
          assert path[..k][0] == path[0];
        }
        InsertIntoEmpty(path[1..], value);
      } else if Blocks(existing, isLast) {
        FirstConflict(entries, path, value, 1);
      } else if !isLast {
        InsertSucceedsIff(existing.value.entries, path[1..], value);
        FreeBelow(entries, path, existing.value);
      }
    }
  }

  lemma FreeBelow(entries: seq<Entry>, path: Path, child: Node)
    requires |path| > 1 && Get(entries, path[0]) == Some(child) && child.Section?
    ensures IsFree(entries, path) <==> IsFree(child.entries, path[1..])
  {
    NodeAtOne(entries, path[..1]);
    forall k | 2 <= k <= |path| ensures NodeAt(Section(entries), path[..k]) == NodeAt(child, path[1..][..k - 1]) {
      NodeAtPrefix(entries, path, k, child);
    }
    if IsFree(entries, path) {
      forall j | 1 <= j <= |path[1..]|
        ensures !Blocks(NodeAt(Section(child.entries), path[1..][..j]), j == |path[1..]|)
      {
        assert !Blocks(NodeAt(Section(entries), path[..j + 1]), j + 1 == |path|);
      }
    }
    if IsFree(child.entries, path[1..]) {
      forall k | 1 <= k <= |path|
        ensures !Blocks(NodeAt(Section(entries), path[..k]), k == |path|)
      {
        if k > 1 {
          assert !Blocks(NodeAt(Section(child.entries), path[1..][..k - 1]), k - 1 == |path[1..]|);
        }
      }
    }
  }
}
