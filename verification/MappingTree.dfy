/**
The configuration mapping as it is mutated in place: a tree of mappings owned by
their parents, walked and extended by a recursive insert
(cli/config/src/node.rs, cli/config/src/service.rs).
*/
module MappingTree {
  import opened Wrappers
  import opened ConfigTree

  /** A slot's content: a scalar or a sequence, held as a value, or an owned child mapping. */
  datatype Cell = Plain(node: Node) | Child(mapping: Mapping)

  datatype Slot = Slot(key: string, cell: Cell)

  class Mapping {
    var slots: seq<Slot>
    ghost var Entries: seq<Entry>   // the value held
    ghost var Repr: set<Mapping>    // this mapping and every mapping below it

    ghost predicate Valid()
      reads this, Repr
      ensures Valid() ==> this in Repr
      decreases Repr
    {
      && this in Repr
      && |Entries| == |slots|
      && (forall i | 0 <= i < |slots| :: Entries[i].key == slots[i].key && OwnsSlot(i))
      && (forall i, j | 0 <= i < j < |slots| && slots[i].cell.Child? && slots[j].cell.Child? ::
            slots[i].cell.mapping.Repr !! slots[j].cell.mapping.Repr)
    }

    /** Slot `i` holds its part of the value, and a child lies within this footprint and holds its own. */
    ghost predicate OwnsSlot(i: nat)
      requires i < |slots| == |Entries| && this in Repr
      reads this, Repr
      decreases Repr, 0
    {
      match slots[i].cell
      case Plain(node) => !node.Section? && Entries[i].node == node
      case Child(child) =>
        && child in Repr && child.Repr <= Repr && this !in child.Repr
        && child.Valid() && Entries[i].node == Section(child.Entries)
    }

    constructor ()
      ensures Valid() && fresh(Repr) && Repr == {this} && Entries == []
    {
      slots := [];
      Entries := [];
      Repr := {this};
    }

    /** Position of the first slot with this key, or the number of slots. */
    method Position(key: string) returns (i: nat)
      requires Valid()
      ensures i == IndexOf(Entries, key) && i <= |slots|
    {
      i := 0;
      while i < |slots| && slots[i].key != key
        invariant i <= |slots|
        invariant forall j | 0 <= j < i :: Entries[j].key != key
      {
        i := i + 1;
      }
      IndexOfUnique(Entries, key, i);
    }

    /** Overwrites the first entry with this key and leaves the order alone; a new key goes to the end. */
    method Upsert(key: string, node: Node)
      requires Valid() && !node.Section?
      modifies this
      ensures Valid() && Repr == old(Repr)
      ensures Entries == ConfigTree.Upsert(old(Entries), key, node)
    {
      var i := Position(key);
      if i < |slots| {
        slots := slots[i := Slot(key, Plain(node))];
        Entries := Entries[i := Entry(key, node)];
      } else {
        slots := slots + [Slot(key, Plain(node))];
        Entries := Entries + [Entry(key, node)];
      }
    }

    method PushPlain(key: string, node: Node)
      requires Valid() && !node.Section?
      modifies this
      ensures Valid() && Repr == old(Repr) && Entries == old(Entries) + [Entry(key, node)]
    {
      slots := slots + [Slot(key, Plain(node))];
      Entries := Entries + [Entry(key, node)];
    }

    method PushSection(key: string, child: Mapping)
      requires Valid() && child.Valid() && Repr !! child.Repr
      modifies this
      ensures Valid() && Repr == old(Repr) + child.Repr
      ensures slots == old(slots) + [Slot(key, Child(child))]
      ensures Entries == old(Entries) + [Entry(key, Section(child.Entries))]
    {
      slots := slots + [Slot(key, Child(child))];
      Entries := Entries + [Entry(key, Section(child.Entries))];
      Repr := Repr + child.Repr;
    }

    /** Writes the string at the last segment, unless a mapping or a sequence stands there. */
    method SetLeaf(head: string, value: string) returns (r: Outcome<Conflict>)
      requires Valid()
      modifies this
      ensures Valid() && Repr == old(Repr)
      ensures AgreesWithInsertion(r, old(Entries), [head], value, Entries)
    {
      var i := Position(head);
      if i < |slots| && (slots[i].cell.Child? || slots[i].cell.node.Sequence?) {
        return Fail(Conflict(head, ExistingSection));
      }
      Upsert(head, Leaf(String(value)));
      r := Pass;
    }

    /** The mapping to descend into for an inner segment, created empty when the segment is absent. */
    method DescendForInsert(head: string) returns (r: Result<Mapping, Conflict>, ghost i: nat)
      requires Valid()
      modifies this
      ensures Valid() && fresh(Repr - old(Repr)) && old(Repr) <= Repr
      ensures i == IndexOf(old(Entries), head) && i < |slots|
      ensures r.Failure? ==>
                && Entries == old(Entries) && Repr == old(Repr)
                && r.error == Conflict(head, ExistingValue) && !Entries[i].node.Section?
      ensures r.Success? ==>
                && slots[i] == Slot(head, Child(r.value))
                && Entries == if i < |old(Entries)| then old(Entries) else old(Entries) + [Entry(head, Section([]))]
    {
      var at := Position(head);
      i := at;
      if at == |slots| {
        var child := new Mapping();
        PushSection(head, child);
      }
      if slots[at].cell.Child? {
        r := Success(slots[at].cell.mapping);
      } else {
        r := Failure(Conflict(head, ExistingValue));
      }
    }

    /** Writes `value` at `path`, creating the mappings on the way. */
    method Insert(path: Path, value: string) returns (r: Outcome<Conflict>)
      requires Valid()
      modifies Repr
      ensures Valid() && fresh(Repr - old(Repr))
      ensures AgreesWithInsertion(r, old(Entries), path, value, Entries)
      decreases |path|
    {
      if path == [] {
        return Pass;
      }
      if |path| == 1 {
        assert path == [path[0]];
        r := SetLeaf(path[0], value);
        return;
      }
      var descent, i := DescendForInsert(path[0]);
      if descent.Failure? {
        return Fail(descent.error);
      }
      var child := descent.value;
      ghost var mid, section := Entries, child.Entries;
      assert OwnsSlot(i);
      label descended:
      r := child.Insert(path[1..], value);
      Repr := Repr + child.Repr;
      Entries := Entries[i := Entry(path[0], Section(child.Entries))];
      Reassemble@descended(i);
      InsertInto(old(Entries), path, value, i, section, mid, r, child.Entries, Entries);
    }

    /** Once a child has been changed within its own footprint, the parent is whole again. */
    twostate lemma Reassemble(i: nat)
      requires old(Valid()) && i < |slots| && slots == old(slots) && slots[i].cell.Child?
      requires var child := slots[i].cell.mapping;
               && child.Valid() && fresh(child.Repr - old(child.Repr)) && Repr == old(Repr) + child.Repr
               && Entries == old(Entries)[i := Entry(slots[i].key, Section(child.Entries))]
               && forall m: Mapping | m in old(Repr) && m != this && m !in old(child.Repr) :: unchanged(m)
      ensures Valid()
    {
      var child := slots[i].cell.mapping;
      assert old(OwnsSlot(i));
      forall j | 0 <= j < |slots| && j != i
        ensures OwnsSlot(j) && (slots[j].cell.Child? ==> slots[j].cell.mapping.Repr == old(slots[j].cell.mapping.Repr))
      {
        assert old(OwnsSlot(j));
        if slots[j].cell.Child? {
          assert old(slots[j].cell.mapping.Repr) !! old(child.Repr);
        }
      }
    }

    /** The value held, read back out of the tree. */
    method Snapshot() returns (entries: seq<Entry>)
      requires Valid()
      ensures entries == Entries
      decreases Repr
    {
      entries := [];
      var i := 0;
      while i < |slots|
        invariant i <= |slots| && entries == Entries[..i]
      {
        assert OwnsSlot(i);
        match slots[i].cell {
          case Plain(node) =>
            entries := entries + [Entry(slots[i].key, node)];
          case Child(child) =>
            var inner := child.Snapshot();
            entries := entries + [Entry(slots[i].key, Section(inner))];
        }
        i := i + 1;
      }
    }
  }

  /** A mutated mapping against the insert on values: the same outcome, and untouched when it fails. */
  ghost predicate AgreesWithInsertion(r: Outcome<Conflict>, before: seq<Entry>, path: Path, value: string,
                                      after: seq<Entry>)
  {
    match Insertion(before, path, value)
    case Success(updated) => r == Pass && after == updated
    case Failure(conflict) => r == Fail(conflict) && after == before
  }

  lemma InsertInto(before: seq<Entry>, path: Path, value: string, i: nat, section: seq<Entry>, mid: seq<Entry>,
                   r: Outcome<Conflict>, inner: seq<Entry>, after: seq<Entry>)
    requires |path| > 1 && i == IndexOf(before, path[0]) && i < |mid| && mid[i] == Entry(path[0], Section(section))
    requires mid == if i < |before| then before else before + [Entry(path[0], Section([]))]
    requires AgreesWithInsertion(r, section, path[1..], value, inner)
    requires after == mid[i := Entry(path[0], Section(inner))]
    ensures AgreesWithInsertion(r, before, path, value, after)
  {
    if i == |before| {
      InsertIntoEmpty(path[1..], value);
    }
  }

  /** Builds the mutable tree of a value. */
  method FromEntries(entries: seq<Entry>) returns (m: Mapping)
    ensures fresh(m.Repr) && m.Valid() && m.Entries == entries
    decreases entries
  {
    m := new Mapping();
    var i := 0;
    while i < |entries|
      invariant i <= |entries| && fresh(m.Repr) && m.Valid() && m.Entries == entries[..i]
    {
      match entries[i].node {
        case Section(inner) =>
          var child := FromEntries(inner);
          m.PushSection(entries[i].key, child);
        case node =>
          m.PushPlain(entries[i].key, node);
      }
      i := i + 1;
    }
  }
}
