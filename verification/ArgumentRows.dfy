// Flattening an argument literal into value and child rows while pushing the expected types
// down (processArgumentValue of loadDocuments.go), and the row-by-row verdict on the result.
module ArgumentRows {
  import opened Wrappers
  import opened TypeRefs
  import opened ArgumentValues

  /** The number of rows a literal takes. */
  function Size(v: Value): nat
    decreases v, 0
  {
    1 + if v.kind.Composite() then Sizes(v.children) else 0
  }

  function Sizes(children: seq<Child>): nat
    decreases children, 1
  {
    if children == [] then 0 else Size(children[0].value) + Sizes(children[1..])
  }

  /** The type a child is expected to have; None stands for the extraction error. */
  function ChildExpectation(s: Schema, parent: Kind, expected: Typed, child: Child): Option<Typed>
  {
    if parent.ListKind? then Some(Typed(expected.name, ItemModifiers(expected.modifiers)))
    else if (expected.name, child.name) in s.typeFields then Some(s.typeFields[(expected.name, child.name)])
    else if expected.name == ARGUMENT_SPECIFICATION && child.name == "defaultValue" then
      match child.value.kind
      case IntKind => Some(Typed("Int", "!"))
      case FloatKind => Some(Typed("Float", "!"))
      case StringKind => Some(Typed("String", "!"))
      case BlockKind => Some(Typed("Block", "!"))
      case BooleanKind => Some(Typed("Boolean", "!"))
      case _ => None
    else Some(Typed("", ""))
  }

  /** No default value of an argument specification has an unsupported kind. */
  predicate Extractable(s: Schema, v: Value, expected: Typed)
    decreases v, 0
  {
    v.kind.Composite() ==> ChildrenExtractable(s, v.children, v.kind, expected)
  }

  predicate ChildrenExtractable(s: Schema, children: seq<Child>, parent: Kind, expected: Typed)
    decreases children, 1
  {
    children == [] ||
    (ChildExtractable(s, children[0], parent, expected) && ChildrenExtractable(s, children[1..], parent, expected))
  }

  predicate ChildExtractable(s: Schema, child: Child, parent: Kind, expected: Typed)
    decreases child, 0
  {
    var e := ChildExpectation(s, parent, expected, child);
    e.Some? && Extractable(s, child.value, e.value)
  }

  /** The tables hold the literal as the rows id, id + 1, ... in source order. */
  ghost predicate Stored(s: Schema, t: Tables, v: Value, expected: Typed, id: int)
    decreases v, 0
  {
    && id in t.values && t.values[id] == Row(v.kind, v.raw, expected)
    && (v.kind.Composite() ==> StoredChildren(s, t, v.children, v.kind, expected, id, id + 1))
  }

  ghost predicate StoredChildren(s: Schema, t: Tables, children: seq<Child>, parent: Kind, expected: Typed, parentId: int, id: int)
    decreases children, 1
  {
    children == [] ||
    (&& StoredChild(s, t, children[0], parent, expected, parentId, id)
     && StoredChildren(s, t, children[1..], parent, expected, parentId, id + Size(children[0].value)))
  }

  ghost predicate StoredChild(s: Schema, t: Tables, child: Child, parent: Kind, expected: Typed, parentId: int, id: int)
    decreases child, 0
  {
    var e := ChildExpectation(s, parent, expected, child);
    && e.Some? && Stored(s, t, child.value, e.value, id)
    && id in t.links && t.links[id] == Link(parentId, child.name)
  }

  ghost predicate SameValues(t: Tables, u: Tables, lo: int, hi: int)
  {
    forall i :: lo <= i < hi ==> (i in t.values <==> i in u.values) && (i in t.values ==> t.values[i] == u.values[i])
  }

  ghost predicate SameLinks(t: Tables, u: Tables, lo: int, hi: int)
  {
    forall i :: lo <= i < hi ==> (i in t.links <==> i in u.links) && (i in t.links ==> t.links[i] == u.links[i])
  }

  lemma {:induction false} StoredKept(s: Schema, t: Tables, u: Tables, v: Value, expected: Typed, id: int)
    requires Stored(s, t, v, expected, id)
    requires SameValues(t, u, id, id + Size(v)) && SameLinks(t, u, id + 1, id + Size(v))
    ensures Stored(s, u, v, expected, id)
    decreases v, 0
  {
    if v.kind.Composite() {
      StoredChildrenKept(s, t, u, v.children, v.kind, expected, id, id + 1);
    }
  }

  lemma {:induction false} StoredChildrenKept(s: Schema, t: Tables, u: Tables, children: seq<Child>, parent: Kind, expected: Typed, parentId: int, id: int)
    requires StoredChildren(s, t, children, parent, expected, parentId, id)
    requires SameValues(t, u, id, id + Sizes(children)) && SameLinks(t, u, id, id + Sizes(children))
    ensures StoredChildren(s, u, children, parent, expected, parentId, id)
    decreases children, 1
  {
    if children != [] {
      StoredChildKept(s, t, u, children[0], parent, expected, parentId, id);
      StoredChildrenKept(s, t, u, children[1..], parent, expected, parentId, id + Size(children[0].value));
    }
  }

  lemma {:induction false} StoredChildKept(s: Schema, t: Tables, u: Tables, child: Child, parent: Kind, expected: Typed, parentId: int, id: int)
    requires StoredChild(s, t, child, parent, expected, parentId, id)
    requires SameValues(t, u, id, id + Size(child.value)) && SameLinks(t, u, id, id + Size(child.value))
    ensures StoredChild(s, u, child, parent, expected, parentId, id)
    decreases child, 0
  {
    StoredKept(s, t, u, child.value, ChildExpectation(s, parent, expected, child).value, id);
  }

  lemma {:induction false} StoredChildrenSnoc(s: Schema, t: Tables, children: seq<Child>, c: Child, parent: Kind, expected: Typed, parentId: int, id: int)
    requires StoredChildren(s, t, children, parent, expected, parentId, id)
    requires StoredChild(s, t, c, parent, expected, parentId, id + Sizes(children))
    ensures StoredChildren(s, t, children + [c], parent, expected, parentId, id)
    ensures Sizes(children + [c]) == Sizes(children) + Size(c.value)
    decreases |children|
  {
    if children == [] {
      assert (children + [c])[1..] == [];
    } else {
      assert (children + [c])[1..] == children[1..] + [c];
      StoredChildrenSnoc(s, t, children[1..], c, parent, expected, parentId, id + Size(children[0].value));
    }
  }

  lemma {:induction false} ExtractablePrefix(s: Schema, children: seq<Child>, k: nat, parent: Kind, expected: Typed)
    requires k < |children| && ChildrenExtractable(s, children, parent, expected)
    ensures ChildExtractable(s, children[k], parent, expected)
    decreases k
  {
    if k > 0 { ExtractablePrefix(s, children[1..], k - 1, parent, expected); }
  }

  lemma {:induction false} ExtractableAll(s: Schema, children: seq<Child>, parent: Kind, expected: Typed)
    requires forall k :: 0 <= k < |children| ==> ChildExtractable(s, children[k], parent, expected)
    ensures ChildrenExtractable(s, children, parent, expected)
    decreases |children|
  {
    if children != [] {
      assert forall k :: 0 <= k < |children| - 1 ==> children[1..][k] == children[k + 1];
      ExtractableAll(s, children[1..], parent, expected);
    }
  }

  /** The rows below n are the same in both. */
  ghost predicate Untouched(t: Tables, u: Tables, n: int)
  {
    && (forall i :: i < n ==> (i in t.values <==> i in u.values) && (i in t.values ==> t.values[i] == u.values[i]))
    && (forall i :: i < n ==> (i in t.links <==> i in u.links) && (i in t.links ==> t.links[i] == u.links[i]))
  }

  /** Rows after n hang below row top or a later one. */
  ghost predicate HangsFrom(links: map<int, Link>, n: int, top: int)
  {
    forall i :: i in links && i > n ==> links[i].parent >= top
  }

  /** A top-level literal and the id of its first row. */
  datatype Root = Root(value: Value, expected: Typed, id: int)

  /** The argument_values and argument_value_children tables. */
  class ArgumentStore {
    const schema: Schema
    var values: map<int, Row>
    var links: map<int, Link>
    var nextId: int
    ghost var roots: seq<Root>

    ghost function Contents(): Tables
      reads this
    {
      Tables(values, links)
    }

    /** Ids are handed out in increasing order and every link leads to an earlier row. */
    ghost predicate Ordered()
      reads this`values, this`links, this`nextId
    {
      && (forall i :: i in values ==> i < nextId)
      && (forall i :: i in links ==> links[i].parent < i < nextId)
    }

    ghost predicate Valid()
      reads this
    {
      Ordered() && forall r :: r in roots ==> Kept(r)
    }

    ghost predicate Kept(r: Root)
      reads this
    {
      && r.id + Size(r.value) <= nextId && r.id !in links
      && Stored(schema, Contents(), r.value, r.expected, r.id)
      && Isolated(Contents(), r.id, r.id + Size(r.value))
    }

    constructor (schema: Schema)
      ensures Valid() && this.schema == schema && values == map[] && links == map[] && roots == [] && nextId == 1
    {
      this.schema, values, links, nextId, roots := schema, map[], map[], 1, [];
    }

    /** Stores one top-level literal; on an extraction error rows may be left behind, but no
        literal stored before is touched. */
    method Insert(v: Value, expected: Typed) returns (ok: bool, id: int)
      requires Valid()
      modifies this
      ensures Valid() && id == old(nextId)
      ensures ok <==> Extractable(schema, v, expected)
      ensures roots == old(roots) + if ok then [Root(v, expected, id)] else []
    {
      ghost var before := Contents();
      ok, id := ProcessArgumentValue(v, expected);
      forall r | r in roots ensures Kept(r) {
        assert old(Kept(r));
        StoredKept(schema, before, Contents(), r.value, r.expected, r.id);
      }
      if ok {
        roots := roots + [Root(v, expected, id)];
      }
    }

    method ProcessArgumentValue(v: Value, expected: Typed) returns (ok: bool, id: int)
      requires Ordered()
      modifies this`values, this`links, this`nextId
      ensures Ordered() && id == old(nextId) && old(nextId) < nextId
      ensures ok <==> Extractable(schema, v, expected)
      ensures ok ==> nextId == id + Size(v) && Stored(schema, Contents(), v, expected, id)
      ensures Untouched(old(Contents()), Contents(), id)
      ensures id !in links && HangsFrom(links, id, id)
      decreases v, 1
    {
      id := nextId;
      values := values[id := Row(v.kind, v.raw, expected)];
      nextId := nextId + 1;
      ok := true;
      if v.kind.Composite() {
        ok := ProcessChildren(v, expected, id);
      }
    }

    /** The loop over the children of the row just stored. */
    method ProcessChildren(v: Value, expected: Typed, id: int) returns (ok: bool)
      requires Ordered() && nextId == id + 1 && v.kind.Composite()
      modifies this`values, this`links, this`nextId
      ensures Ordered() && nextId > id
      ensures ok <==> ChildrenExtractable(schema, v.children, v.kind, expected)
      ensures ok ==> nextId == id + 1 + Sizes(v.children)
      ensures ok ==> StoredChildren(schema, Contents(), v.children, v.kind, expected, id, id + 1)
      ensures Untouched(old(Contents()), Contents(), id + 1) && HangsFrom(links, id, id)
      decreases v, 0
    {
      hide Stored, Extractable;
      var k := 0;
      while k < |v.children|
        invariant 0 <= k <= |v.children|
        invariant Ordered() && nextId == id + 1 + Sizes(v.children[..k])
        invariant StoredChildren(schema, Contents(), v.children[..k], v.kind, expected, id, id + 1)
        invariant forall j :: 0 <= j < k ==> ChildExtractable(schema, v.children[j], v.kind, expected)
        invariant Untouched(old(Contents()), Contents(), id + 1) && HangsFrom(links, id, id)
      {
        ok := ProcessChild(v, expected, id, k);
        if !ok {
          NotExtractable(v, expected, k);
          return;
        }
        k := k + 1;
      }
      assert v.children[..k] == v.children;
      ExtractableAll(schema, v.children, v.kind, expected);
      ok := true;
    }

    /** One round of the loop over the children: the child's rows, then the relationship row. */
    method ProcessChild(v: Value, expected: Typed, id: int, k: nat) returns (ok: bool)
      requires Ordered() && v.kind.Composite() && k < |v.children|
      requires nextId == id + 1 + Sizes(v.children[..k])
      requires StoredChildren(schema, Contents(), v.children[..k], v.kind, expected, id, id + 1)
      requires HangsFrom(links, id, id)
      modifies this`values, this`links, this`nextId
      ensures Ordered() && old(nextId) <= nextId
      ensures ok <==> ChildExtractable(schema, v.children[k], v.kind, expected)
      ensures ok ==> nextId == id + 1 + Sizes(v.children[..k + 1])
      ensures ok ==> StoredChildren(schema, Contents(), v.children[..k + 1], v.kind, expected, id, id + 1)
      ensures Untouched(old(Contents()), Contents(), old(nextId)) && HangsFrom(links, id, id)
      decreases v.children[k], 2
    {
      hide Extractable, Stored, StoredChildren;
      var child := v.children[k];
      var e := ChildExpectation(schema, v.kind, expected, child);
      if e.None? {
        return false;
      }
      ghost var before := Contents();
      var childId;
      ok, childId := ProcessArgumentValue(child.value, e.value);
      if ok {
        StoredChildrenKept(schema, before, Contents(), v.children[..k], v.kind, expected, id, id + 1);
        Relate(v, expected, e.value, id, childId, k);
      }
    }

    /** The relationship row of the k-th child. */
    method Relate(v: Value, expected: Typed, ghost e: Typed, id: int, childId: int, k: nat)
      requires v.kind.Composite() && k < |v.children| && childId == id + 1 + Sizes(v.children[..k])
      requires ChildExpectation(schema, v.kind, expected, v.children[k]) == Some(e)
      requires StoredChildren(schema, Contents(), v.children[..k], v.kind, expected, id, id + 1)
      requires Stored(schema, Contents(), v.children[k].value, e, childId)
      modifies this`links
      ensures links == old(links)[childId := Link(id, v.children[k].name)]
      ensures childId + Size(v.children[k].value) == id + 1 + Sizes(v.children[..k + 1])
      ensures StoredChildren(schema, Contents(), v.children[..k + 1], v.kind, expected, id, id + 1)
    {
      hide Stored, StoredChildren;
      ghost var before := Contents();
      links := links[childId := Link(id, v.children[k].name)];
      StoredKept(schema, before, Contents(), v.children[k].value, e, childId);
      StoredChildrenKept(schema, before, Contents(), v.children[..k], v.kind, expected, id, id + 1);
      StoredChildrenSnoc(schema, Contents(), v.children[..k], v.children[k], v.kind, expected, id, id + 1);
      assert v.children[..k] + [v.children[k]] == v.children[..k + 1];
    }

    lemma NotExtractable(v: Value, expected: Typed, k: nat)
      requires v.kind.Composite() && k < |v.children| && !ChildExtractable(schema, v.children[k], v.kind, expected)
      ensures !ChildrenExtractable(schema, v.children, v.kind, expected)
    {
      if ChildrenExtractable(schema, v.children, v.kind, expected) {
        ExtractablePrefix(schema, v.children, k, v.kind, expected);
      }
    }
  }

  /** No row outside [lo, hi) hangs below a row inside. */
  ghost predicate Isolated(t: Tables, lo: int, hi: int)
  {
    forall i :: i in t.links && !(lo < i < hi) ==> !(lo <= t.links[i].parent < hi)
  }
}
