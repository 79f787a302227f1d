/**
What a successful write changes in a configuration tree, what it leaves alone,
and how two writes interact (cli/config/src/service.rs).
*/
module ConfigWrites {
  import opened Wrappers
  import opened ConfigTree

  ghost predicate Unrelated(a: Path, b: Path) {
    !(a <= b) && !(b <= a)
  }

  /** The entries of the mapping a path names, none when it names something else. */
  function SectionAt(entries: seq<Entry>, path: Path): seq<Entry> {
    match NodeAt(Section(entries), path)
    case Some(Section(inner)) => inner
    case _ => []
  }

  /** `new` is `old` with position `i` changed or appended under `key`: every other entry stays, node and place. */
  ghost predicate SameBut(old': seq<Entry>, new': seq<Entry>, i: nat, key: string) {
    && i <= |old'|
    && |new'| == (if i < |old'| then |old'| else |old'| + 1)
    && new'[i].key == key
    && forall j | 0 <= j < |old'| && j != i :: new'[j] == old'[j]
  }

  /** The subtree a write recurses into, and how the result is rebuilt around it. */
  lemma InsertStep(entries: seq<Entry>, path: Path, value: string)
    requires |path| > 1 && Insertion(entries, path, value).Success?
    ensures var section := SectionAt(entries, path[..1]);
            && (Get(entries, path[0]).Some? ==> Get(entries, path[0]) == Some(Section(section)))
            && (Get(entries, path[0]).None? ==> section == [])
            && Insertion(section, path[1..], value).Success?
            && Insertion(entries, path, value).value
            == Upsert(entries, path[0], Section(Insertion(section, path[1..], value).value))
  {
    NodeAtOne(entries, path[..1]);
  }

  /** At every mapping the write passes through, only the entry on the path changes; a new one goes last. */
  lemma {:induction false} PositionsKept(entries: seq<Entry>, path: Path, value: string, k: nat)
    requires k < |path| && Insertion(entries, path, value).Success?
    ensures var old' := SectionAt(entries, path[..k]);
            SameBut(old', SectionAt(Insertion(entries, path, value).value, path[..k]), IndexOf(old', path[k]), path[k])
    decreases k
  {
    var updated := Insertion(entries, path, value).value;
    if k == 0 {
      assert path[..0] == [];
    } else {
      InsertStep(entries, path, value);
      var section := SectionAt(entries, path[..1]);
      var inner := Insertion(section, path[1..], value).value;
      PositionsKept(section, path[1..], value, k - 1);
      UpsertGet(entries, path[0], Section(inner), path[0]);
      assert path[..k][1..] == path[1..][..k - 1];
      assert path[..1][1..] == [];
    }
  }

  /** A mapping, or possibly nothing at all. */
  predicate IsSection(node: Option<Node>, present: bool) {
    if node.Some? then node.value.Section? else !present
  }

  /**
  The written path holds the value, nothing lies below it, and every path off the written branch
  names the very same node.
  */
  lemma {:induction false} NodeAtAfterInsert(entries: seq<Entry>, path: Path, value: string, q: Path)
    requires path != [] && Insertion(entries, path, value).Success?
    ensures var updated := Insertion(entries, path, value).value;
            && (q == path ==> NodeAt(Section(updated), q) == Some(Leaf(String(value))))
            && (path < q ==> NodeAt(Section(updated), q) == NodeAt(Section(entries), q) == None)
            && (q < path ==> IsSection(NodeAt(Section(updated), q), true))
            && (q < path ==> IsSection(NodeAt(Section(entries), q), false))
            && (Unrelated(q, path) ==> NodeAt(Section(updated), q) == NodeAt(Section(entries), q))
    decreases |path|
  {
    var updated := Insertion(entries, path, value).value;
    if q != [] {
      if |path| == 1 {
        UpsertGet(entries, path[0], Leaf(String(value)), q[0]);
        assert q[0] == path[0] ==> path <= q;
        assert q == path <==> q[0] == path[0] && q[1..] == [];
      } else {
        InsertStep(entries, path, value);
        assert path[..1][1..] == [];
        var section := SectionAt(entries, path[..1]);
        var inner := Insertion(section, path[1..], value).value;
        UpsertGet(entries, path[0], Section(inner), q[0]);
        if q[0] == path[0] {
          NodeAtAfterInsert(section, path[1..], value, q[1..]);
          assert q == [q[0]] + q[1..] && path == [path[0]] + path[1..];
          assert NodeAt(Section(updated), q) == NodeAt(Section(inner), q[1..]);
          if Get(entries, path[0]).None? {
            NodeAtNothing(q[1..]);
          }
        }
      }
    }
  }

  lemma NodeAtNothing(q: Path)
    ensures q != [] ==> NodeAt(Section([]), q) == None
  {
  }

  /** A successful write changes the answer for its own key alone. */
  lemma ResolveAfterInsert(entries: seq<Entry>, path: Path, value: string, q: Path)
    requires path != [] && q != [] && Insertion(entries, path, value).Success?
    ensures Resolve(Some(Section(Insertion(entries, path, value).value)), q)
         == if q == path then Some(String(value)) else Resolve(Some(Section(entries)), q)
  {
    NodeAtAfterInsert(entries, path, value, q);
  }

  // ---- A write as an edit ----

  /**
  The path holds the value, every unrelated path names the very node it named, and in each
  mapping on the way every other entry keeps its node and its place.
  */
  ghost predicate IsEdited(old': seq<Entry>, new': seq<Entry>, path: Path, value: string) {
    && NodeAt(Section(new'), path) == Some(Leaf(String(value)))
    && (forall q: Path | Unrelated(q, path) :: NodeAt(Section(new'), q) == NodeAt(Section(old'), q))
    && (forall k: nat | k < |path| :: EditedAt(old', new', path, k))
  }

  ghost predicate EditedAt(old': seq<Entry>, new': seq<Entry>, path: Path, k: nat)
    requires k < |path|
  {
    var before, after := SectionAt(old', path[..k]), SectionAt(new', path[..k]);
    SameBut(before, after, IndexOf(before, path[k]), path[k])
  }

  lemma InsertEdits(entries: seq<Entry>, path: Path, value: string)
    requires path != [] && Insertion(entries, path, value).Success?
    ensures IsEdited(entries, Insertion(entries, path, value).value, path, value)
  {
    var updated := Insertion(entries, path, value).value;
    NodeAtAfterInsert(entries, path, value, path);
    forall q: Path | Unrelated(q, path) ensures NodeAt(Section(updated), q) == NodeAt(Section(entries), q) {
      NodeAtAfterInsert(entries, path, value, q);
    }
    forall k: nat | k < |path| ensures EditedAt(entries, updated, path, k) {
      PositionsKept(entries, path, value, k);
    }
  }

  lemma EditedAtRoot(old': seq<Entry>, new': seq<Entry>, path: Path)
    requires path != [] && EditedAt(old', new', path, 0)
    ensures var i := IndexOf(old', path[0]);
            SameBut(old', new', i, path[0]) && IndexOf(new', path[0]) == i && Get(new', path[0]) == Some(new'[i].node)
  {
    assert path[..0] == [];
    IndexOfUnique(new', path[0], IndexOf(old', path[0]));
  }

  lemma SectionAtBelow(entries: seq<Entry>, path: Path, k: nat)
    requires 1 <= k < |path|
    ensures SectionAt(entries, path[..k])
         == if Get(entries, path[0]).Some? && Get(entries, path[0]).value.Section?
            then SectionAt(Get(entries, path[0]).value.entries, path[1..][..k - 1]) else []
  {
    assert path[..k][1..] == path[1..][..k - 1] && path[..k][0] == path[0];
    var child := Get(entries, path[0]);
    if child.Some? {
      assert NodeAt(Section(entries), path[..k]) == NodeAt(child.value, path[1..][..k - 1]);
      assert !child.value.Section? && k > 1 ==> NodeAt(child.value, path[1..][..k - 1]) == None;
    }
  }

  /** What is edited below the first segment is an edit of the mapping there. */
  lemma EditedBelow(old': seq<Entry>, new': seq<Entry>, path: Path, value: string) returns (inner: seq<Entry>)
    requires |path| > 1 && IsEdited(old', new', path, value)
    ensures Get(new', path[0]) == Some(Section(inner))
    ensures IsEdited(SectionAt(old', path[..1]), inner, path[1..], value)
  {
    assert NodeAt(Section(new'), path) == NodeAt(Get(new', path[0]).value, path[1..]);
    inner := Get(new', path[0]).value.entries;
    var section, rest := SectionAt(old', path[..1]), path[1..];
    forall q: Path | Unrelated(q, rest) ensures NodeAt(Section(inner), q) == NodeAt(Section(section), q) {
      UnrelatedBelow(path, q);
      NodeBelow(old', path, q);
      assert NodeAt(Section(new'), [path[0]] + q) == NodeAt(Section(old'), [path[0]] + q);
      assert NodeAt(Section(new'), [path[0]] + q) == NodeAt(Section(inner), q) by { NodeBelow(new', path, q); }
    }
    forall k: nat | k < |rest| ensures EditedAt(section, inner, rest, k) {
      assert EditedAt(old', new', path, k + 1);
      EditedAtBelow(old', new', path, k, inner);
    }
  }

  lemma UnrelatedBelow(path: Path, q: Path)
    requires path != [] && Unrelated(q, path[1..])
    ensures q != [] && Unrelated([path[0]] + q, path)
  {
    assert path == [path[0]] + path[1..];
    PrefixBelow(path[0], q, path[1..]);
    PrefixBelow(path[0], path[1..], q);
  }

  lemma PrefixBelow(head: string, a: Path, b: Path)
    ensures [head] + a <= [head] + b <==> a <= b
  {
    assert ([head] + a)[1..] == a && ([head] + b)[1..] == b;
    assert forall i | 0 <= i < |a| :: ([head] + a)[i + 1] == a[i];
  }

  lemma NodeBelow(entries: seq<Entry>, path: Path, q: Path)
    requires path != [] && q != []
    ensures NodeAt(Section(entries), [path[0]] + q) == NodeAt(Section(SectionAt(entries, path[..1])), q)
  {
    assert ([path[0]] + q)[1..] == q;
    NodeAtOne(entries, path[..1]);
  }

  lemma EditedAtBelow(old': seq<Entry>, new': seq<Entry>, path: Path, k: nat, inner: seq<Entry>)
    requires k + 1 < |path| && EditedAt(old', new', path, k + 1) && Get(new', path[0]) == Some(Section(inner))
    ensures EditedAt(SectionAt(old', path[..1]), inner, path[1..], k)
  {
    SectionBelow(old', path, k);
    SectionBelow(new', path, k);
    NodeAtOne(new', path[..1]);
    assert path[1..][k] == path[k + 1];
  }

  lemma SectionBelow(entries: seq<Entry>, path: Path, k: nat)
    requires k < |path| - 1
    ensures SectionAt(entries, path[..k + 1]) == SectionAt(SectionAt(entries, path[..1]), path[1..][..k])
  {
    SectionAtBelow(entries, path, k + 1);
    NodeAtOne(entries, path[..1]);
    if k == 0 {
      assert path[1..][..0] == [] && path[..0 + 1] == path[..1];
    } else {
      assert path[1..][..k] != [];
    }
  }

  /** There is only one such edit, so the insertion is determined by what it changes and what it keeps. */
  lemma {:induction false} EditIsUnique(old': seq<Entry>, a: seq<Entry>, b: seq<Entry>, path: Path, value: string)
    requires path != [] && IsEdited(old', a, path, value) && IsEdited(old', b, path, value)
    ensures a == b
    decreases |path|
  {
    assert EditedAt(old', a, path, 0) && EditedAt(old', b, path, 0);
    EditedAtRoot(old', a, path);
    EditedAtRoot(old', b, path);
    if |path| == 1 {
      NodeAtOne(a, path);
      NodeAtOne(b, path);
    } else {
      var innerA := EditedBelow(old', a, path, value);
      var innerB := EditedBelow(old', b, path, value);
      EditIsUnique(SectionAt(old', path[..1]), innerA, innerB, path[1..], value);
    }
    SameEdit(old', a, b, IndexOf(old', path[0]), path[0]);
  }

  lemma SameEdit(old': seq<Entry>, a: seq<Entry>, b: seq<Entry>, i: nat, key: string)
    requires SameBut(old', a, i, key) && SameBut(old', b, i, key) && a[i].node == b[i].node
    ensures a == b
  {
    assert a[i] == b[i];
  }

  /** The document after a write: an edit of the mapping it was, or of an empty one when it was none. */
  ghost predicate IsDocumentEdit(before: Option<Node>, after: Node, path: Path, value: string) {
    after.Section? && match before
                      case Some(Section(entries)) => IsEdited(entries, after.entries, path, value)
                      case _ => IsEdited([], after.entries, path, value)
  }

  // ---- Two writes ----

  /** Whether one write is allowed does not depend on an earlier write to an unrelated key. */
  lemma FreeAfterUnrelated(entries: seq<Entry>, a: Path, va: string, b: Path)
    requires a != [] && Unrelated(a, b) && Insertion(entries, a, va).Success?
    ensures IsFree(Insertion(entries, a, va).value, b) <==> IsFree(entries, b)
  {
    var updated := Insertion(entries, a, va).value;
    forall k | 1 <= k <= |b|
      ensures Blocks(NodeAt(Section(updated), b[..k]), k == |b|) == Blocks(NodeAt(Section(entries), b[..k]), k == |b|)
    {
      NodeAtAfterInsert(entries, a, va, b[..k]);
      assert b[..k] <= b;
      assert a <= b[..k] ==> a <= b;
      assert b[..k] < a ==> k < |b|;
    }
  }

  /** The entries after an attempted write; a refused one changes nothing. */
  function Attempt(entries: seq<Entry>, path: Path, value: string): seq<Entry> {
    match Insertion(entries, path, value)
    case Success(updated) => updated
    case Failure(_) => entries
  }

  lemma AttemptUnrelated(entries: seq<Entry>, a: Path, va: string, b: Path, vb: string)
    requires a != [] && b != [] && Unrelated(a, b)
    ensures Insertion(Attempt(entries, a, va), b, vb).Success? <==> Insertion(entries, b, vb).Success?
  {
    InsertSucceedsIff(entries, b, vb);
    if Insertion(entries, a, va).Success? {
      FreeAfterUnrelated(entries, a, va, b);
      InsertSucceedsIff(Attempt(entries, a, va), b, vb);
    }
  }

  lemma ResolveAfterAttempt(entries: seq<Entry>, path: Path, value: string, q: Path)
    requires path != [] && q != []
    ensures Resolve(Some(Section(Attempt(entries, path, value))), q)
         == if q == path && Insertion(entries, path, value).Success? then Some(String(value))
            else Resolve(Some(Section(entries)), q)
  {
    if Insertion(entries, path, value).Success? {
      ResolveAfterInsert(entries, path, value, q);
    }
  }

  /**
  Attempted writes to unrelated keys commute: the same ones succeed in either order, and every
  lookup agrees afterwards.
  */
  lemma WritesCommute(entries: seq<Entry>, a: Path, va: string, b: Path, vb: string, q: Path)
    requires a != [] && b != [] && q != [] && Unrelated(a, b)
    ensures var afterA, afterB := Attempt(entries, a, va), Attempt(entries, b, vb);
            && (Insertion(afterA, b, vb).Success? <==> Insertion(entries, b, vb).Success?)
            && (Insertion(afterB, a, va).Success? <==> Insertion(entries, a, va).Success?)
            && Resolve(Some(Section(Attempt(afterA, b, vb))), q) == Resolve(Some(Section(Attempt(afterB, a, va))), q)
  {
    var afterA, afterB := Attempt(entries, a, va), Attempt(entries, b, vb);
    AttemptUnrelated(entries, a, va, b, vb);
    AttemptUnrelated(entries, b, vb, a, va);
    ResolveAfterAttempt(entries, a, va, q);
    ResolveAfterAttempt(entries, b, vb, q);
    ResolveAfterAttempt(afterA, b, vb, q);
    ResolveAfterAttempt(afterB, a, va, q);
  }

  lemma UpsertTwice(entries: seq<Entry>, key: string, n1: Node, n2: Node)
    ensures Upsert(Upsert(entries, key, n1), key, n2) == Upsert(entries, key, n2)
  {
    var i := IndexOf(entries, key);
    IndexOfUnique(Upsert(entries, key, n1), key, i);
  }

  lemma UpsertSwap(entries: seq<Entry>, k1: string, n1: Node, k2: string, n2: Node)
    requires k1 != k2 && IndexOf(entries, k1) < |entries| && IndexOf(entries, k2) < |entries|
    ensures Upsert(Upsert(entries, k1, n1), k2, n2) == Upsert(Upsert(entries, k2, n2), k1, n1)
  {
    IndexOfUnique(Upsert(entries, k1, n1), k2, IndexOf(entries, k2));
    IndexOfUnique(Upsert(entries, k2, n2), k1, IndexOf(entries, k1));
  }

  ghost predicate HoldsScalar(entries: seq<Entry>, path: Path) {
    Resolve(Some(Section(entries)), path).Some?
  }

  /** When both leaves are already there, the two orders even produce the same document, entry for entry. */
  lemma {:induction false} WritesCommuteExactly(entries: seq<Entry>, a: Path, va: string, b: Path, vb: string)
    requires a != [] && b != [] && Unrelated(a, b) && HoldsScalar(entries, a) && HoldsScalar(entries, b)
    ensures Insertion(entries, a, va).Success? && Insertion(entries, b, vb).Success?
    ensures Insertion(Insertion(entries, a, va).value, b, vb).Success?
    ensures Insertion(Insertion(entries, a, va).value, b, vb) == Insertion(Insertion(entries, b, vb).value, a, va)
    decreases |a|
  {
    ScalarIsFree(entries, a, va);
    ScalarIsFree(entries, b, vb);
    if a[0] == b[0] {
      assert [a[0]] + a[1..] == a && [b[0]] + b[1..] == b;
      assert a[1..] == [] ==> a <= b;
      assert b[1..] == [] ==> b <= a;
      assert Unrelated(a[1..], b[1..]);
      var section := Get(entries, a[0]).value.entries;
      WritesCommuteExactly(section, a[1..], va, b[1..], vb);
      var sA, sB := Insertion(section, a[1..], va).value, Insertion(section, b[1..], vb).value;
      UpsertGet(entries, a[0], Section(sA), a[0]);
      UpsertGet(entries, a[0], Section(sB), a[0]);
      var both := Insertion(sA, b[1..], vb).value;
      UpsertTwice(entries, a[0], Section(sA), Section(both));
      UpsertTwice(entries, a[0], Section(sB), Section(both));
    } else {
      ApartCommuteExactly(entries, a, va, b, vb);
    }
  }

  lemma ApartCommuteExactly(entries: seq<Entry>, a: Path, va: string, b: Path, vb: string)
    requires a != [] && b != [] && a[0] != b[0] && HoldsScalar(entries, a) && HoldsScalar(entries, b)
    requires Insertion(entries, a, va).Success? && Insertion(entries, b, vb).Success?
    ensures Insertion(Insertion(entries, a, va).value, b, vb).Success?
    ensures Insertion(Insertion(entries, a, va).value, b, vb) == Insertion(Insertion(entries, b, vb).value, a, va)
  {
    var nA := BranchAfter(entries, a, va);
    var nB := BranchAfter(entries, b, vb);
    UpsertGet(entries, a[0], nA, b[0]);
    UpsertGet(entries, b[0], nB, a[0]);
    UpsertSwap(entries, a[0], nA, b[0], nB);
  }

  /** The node a write leaves under the first segment of its path. */
  function BranchAfter(entries: seq<Entry>, path: Path, value: string): Node
    requires path != [] && Insertion(entries, path, value).Success?
  {
    if |path| == 1 then Leaf(String(value))
    else
      var existing := Get(entries, path[0]);
      Section(Insertion(if existing.Some? then existing.value.entries else [], path[1..], value).value)
  }

  lemma {:induction false} ScalarIsFree(entries: seq<Entry>, path: Path, value: string)
    requires path != [] && HoldsScalar(entries, path)
    ensures Insertion(entries, path, value).Success?
    decreases |path|
  {
    var child := Get(entries, path[0]).value;
    assert NodeAt(Section(entries), path) == NodeAt(child, path[1..]);
    if |path| > 1 {
      ScalarIsFree(child.entries, path[1..], value);
    }
  }

  /** A second write to the same key absorbs the first. */
  lemma {:induction false} SecondWriteAbsorbs(entries: seq<Entry>, path: Path, v1: string, v2: string)
    requires path != [] && Insertion(entries, path, v1).Success?
    ensures Insertion(Insertion(entries, path, v1).value, path, v2) == Insertion(entries, path, v2)
    decreases |path|
  {
    if |path| == 1 {
      UpsertGet(entries, path[0], Leaf(String(v1)), path[0]);
      UpsertTwice(entries, path[0], Leaf(String(v1)), Leaf(String(v2)));
    } else {
      var existing := Get(entries, path[0]);
      var section := if existing.Some? then existing.value.entries else [];
      SecondWriteAbsorbs(section, path[1..], v1, v2);
      var inner := Insertion(section, path[1..], v1).value;
      UpsertGet(entries, path[0], Section(inner), path[0]);
      if Insertion(section, path[1..], v2).Success? {
        UpsertTwice(entries, path[0], Section(inner), Section(Insertion(section, path[1..], v2).value));
      }
    }
  }

  /** A key and one of its proper prefixes cannot both be written, in either order. */
  lemma PrefixWriteFails(entries: seq<Entry>, a: Path, va: string, b: Path, vb: string)
    requires a != [] && b != [] && (a < b || b < a) && Insertion(entries, a, va).Success?
    ensures Insertion(Insertion(entries, a, va).value, b, vb).Failure?
  {
    var updated := Insertion(entries, a, va).value;
    InsertSucceedsIff(updated, b, vb);
    if a < b {
      NodeAtAfterInsert(entries, a, va, a);
      assert b[..|a|] == a;
      assert Blocks(NodeAt(Section(updated), b[..|a|]), |a| == |b|);
    } else {
      NodeAtAfterInsert(entries, a, va, b);
      assert b[..|b|] == b;
      assert Blocks(NodeAt(Section(updated), b[..|b|]), |b| == |b|);
    }
  }

  // ---- Documents made of scalars and non-empty mappings only ----

  /** Every leaf is a scalar and no mapping below the root is empty. */
  predicate IsDense(entries: seq<Entry>) {
    forall i | 0 <= i < |entries| ::
      match entries[i].node
      case Leaf(_) => true
      case Sequence(_) => false
      case Section(inner) => inner != [] && IsDense(inner)
  }

  /** What the flat view alone says about a write: no scalar above the key, none below it. */
  ghost predicate IsFlatFree(entries: seq<Entry>, path: Path) {
    && (forall k | 1 <= k < |path| :: Resolve(Some(Section(entries)), path[..k]) == None)
    && (forall q: Path | path < q :: Resolve(Some(Section(entries)), q) == None)
  }

  lemma {:induction false} DenseHoldsSomething(entries: seq<Entry>) returns (q: Path)
    requires IsDense(entries) && entries != []
    ensures q != [] && HoldsScalar(entries, q)
    decreases entries
  {
    var first := entries[0];
    IndexOfUnique(entries, first.key, 0);
    match first.node {
      case Leaf(_) =>
        q := [first.key];
        NodeAtOne(entries, q);
      case Section(inner) =>
        var below := DenseHoldsSomething(inner);
        q := [first.key] + below;
        assert q[1..] == below;
    }
  }

  lemma {:induction false} DenseNodeAt(entries: seq<Entry>, path: Path)
    requires IsDense(entries) && path != []
    ensures match NodeAt(Section(entries), path)
            case Some(Section(inner)) => inner != [] && IsDense(inner)
            case Some(Sequence(_)) => false
            case _ => true
    decreases |path|
  {
    var child := Get(entries, path[0]);
    assert child.Some? ==> NodeAt(Section(entries), path) == NodeAt(child.value, path[1..]);
    if child.Some? && child.value.Section? && |path| > 1 {
      DenseNodeAt(child.value.entries, path[1..]);
    }
  }

  lemma {:induction false} NodeAtConcat(node: Node, p: Path, q: Path)
    requires NodeAt(node, p).Some?
    ensures NodeAt(node, p + q) == NodeAt(NodeAt(node, p).value, q)
    decreases |p|
  {
    if p == [] {
      assert p + q == q;
    } else {
      assert (p + q)[1..] == p[1..] + q;
      NodeAtConcat(Get(node.entries, p[0]).value, p[1..], q);
    }
  }

  lemma DenseReachesBelow(entries: seq<Entry>, path: Path) returns (q: Path)
    requires IsDense(entries) && path != []
    requires NodeAt(Section(entries), path).Some? && NodeAt(Section(entries), path).value.Section?
    ensures path < q && HoldsScalar(entries, q)
  {
    DenseNodeAt(entries, path);
    var below := DenseHoldsSomething(NodeAt(Section(entries), path).value.entries);
    q := path + below;
    NodeAtConcat(Section(entries), path, below);
  }

  /** On dense documents the flat map decides which writes are allowed. */
  lemma DenseFreeIffFlatFree(entries: seq<Entry>, path: Path)
    requires IsDense(entries) && path != []
    ensures IsFree(entries, path) <==> IsFlatFree(entries, path)
  {
    assert path[..|path|] == path;
    if IsFree(entries, path) {
      forall k | 1 <= k < |path| ensures Resolve(Some(Section(entries)), path[..k]) == None {
        assert !Blocks(NodeAt(Section(entries), path[..k]), k == |path|);
      }
      forall q: Path | path < q ensures Resolve(Some(Section(entries)), q) == None {
        assert !Blocks(NodeAt(Section(entries), path[..|path|]), true);
        BelowNonSection(Section(entries), path, q);
      }
    }
    if IsFlatFree(entries, path) {
      forall k | 1 <= k <= |path| ensures !Blocks(NodeAt(Section(entries), path[..k]), k == |path|) {
        assert path[..k] != [];
        DenseNodeAt(entries, path[..k]);
        var node := NodeAt(Section(entries), path[..k]);
        if k < |path| {
          assert Resolve(Some(Section(entries)), path[..k]) == None;
        } else if node.Some? && node.value.Section? {
          var q := DenseReachesBelow(entries, path);
        }
      }
    }
  }

  lemma {:induction false} BelowNonSection(node: Node, p: Path, q: Path)
    requires p < q && (NodeAt(node, p).Some? ==> !NodeAt(node, p).value.Section?)
    ensures NodeAt(node, q) == None
    decreases |p|
  {
    if p != [] && node.Section? && Get(node.entries, p[0]).Some? {
      BelowNonSection(Get(node.entries, p[0]).value, p[1..], q[1..]);
    }
  }

  /** Writes keep a document dense. */
  lemma {:induction false} InsertKeepsDense(entries: seq<Entry>, path: Path, value: string)
    requires path != [] && IsDense(entries) && Insertion(entries, path, value).Success?
    ensures IsDense(Insertion(entries, path, value).value) && Insertion(entries, path, value).value != []
    decreases |path|
  {
    if |path| > 1 {
      var existing := Get(entries, path[0]);
      InsertKeepsDense(if existing.Some? then existing.value.entries else [], path[1..], value);
    }
  }
}
