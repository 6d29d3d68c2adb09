// Rebuilding argument trees from their rows through parent links, in whatever order the node
// map is iterated, and checking @with arguments on the result
// (packages/houdini-core/plugin/fragmentArguments/validate.go).
module ArgumentTrees {
  import opened Wrappers
  import opened ArgumentValues
  import opened ArgumentRows

  class Node {
    const id: int
    const kind: Kind
    const raw: string
    const parent: Option<int>
    const name: string
    var children: seq<Node>

    constructor (id: int, row: Row, link: Option<Link>)
      ensures this.id == id && kind == row.kind && raw == row.raw && children == []
      ensures parent == (if link.Some? then Some(link.value.parent) else None)
      ensures name == if link.Some? then link.value.name else ""
    {
      this.id, kind, raw := id, row.kind, row.raw;
      parent := if link.Some? then Some(link.value.parent) else None;
      name := if link.Some? then link.value.name else "";
      children := [];
    }
  }

  function LinkOf(t: Tables, id: int): Option<Link>
  {
    if id in t.links then Some(t.links[id]) else None
  }

  /** One node per selected row, carrying that row's data. */
  ghost predicate Nodes(t: Tables, ids: set<int>, flat: map<int, Node>)
  {
    && flat.Keys == ids
    && forall i :: i in ids ==>
      && i in t.values && flat[i].id == i && flat[i].kind == t.values[i].kind && flat[i].raw == t.values[i].raw
      && flat[i].parent == (if i in t.links then Some(t.links[i].parent) else None)
      && flat[i].name == if i in t.links then t.links[i].name else ""
  }

  /** Row c hangs below row id and its node has been attached. */
  ghost predicate Attached(t: Tables, done: set<int>, id: int, c: int)
  {
    c in done && c in t.links && t.links[c].parent == id
  }

  /** The children list of a node holds exactly the attached nodes below it, each once. */
  ghost predicate Collected(t: Tables, flat: map<int, Node>, done: set<int>, i: int)
    requires i in flat
    reads flat[i]
  {
    && (forall k :: 0 <= k < |flat[i].children| ==>
          var n := flat[i].children[k]; n.id in flat && flat[n.id] == n && Attached(t, done, i, n.id))
    && (forall c :: c in flat && Attached(t, done, i, c) ==> flat[c] in flat[i].children)
    && (forall a, b :: 0 <= a < b < |flat[i].children| ==> flat[i].children[a] != flat[i].children[b])
  }

  ghost predicate Assembled(t: Tables, flat: map<int, Node>, done: set<int>)
    reads flat.Values
  {
    forall i :: i in flat ==> Collected(t, flat, done, i)
  }

  // ---------------------------------------------------------------------------
  // The recursive query
  // ---------------------------------------------------------------------------

  /** The rows the arguments refer to, and with a row those that hang below it. */
  ghost predicate Closed(t: Tables, roots: set<int>, ids: set<int>)
  {
    && (forall i :: i in roots && i in t.values ==> i in ids)
    && (forall i :: i in t.links && i in t.values && t.links[i].parent in ids ==> i in ids)
  }

  ghost predicate Needed(t: Tables, roots: set<int>, i: int)
  {
    forall other :: Closed(t, roots, other) ==> i in other
  }

  /** The recursive query, row by row: exactly the rows that must be there. */
  method Select(t: Tables, roots: set<int>) returns (ids: set<int>)
    ensures ids <= t.values.Keys && Closed(t, roots, ids)
    ensures forall other :: Closed(t, roots, other) ==> ids <= other
  {
    ids := {};
    var todo := set i | i in roots && i in t.values;
    while todo != {}
      invariant ids + todo <= t.values.Keys && ids !! todo
      invariant forall i :: i in roots && i in t.values ==> i in ids + todo
      invariant forall i :: i in t.links && i in t.values && t.links[i].parent in ids ==> i in ids + todo
      invariant forall i :: i in ids + todo ==> Needed(t, roots, i)
      decreases t.values.Keys - ids
    {
      var i := AnyOf(todo);
      ids := ids + {i};
      todo := todo + (set c | c in t.links && c in t.values && t.links[c].parent == i) - ids;
    }
    forall other | Closed(t, roots, other) ensures ids <= other {
      forall i | i in ids ensures i in other {
        assert i in ids + todo && Needed(t, roots, i);
      }
    }
  }

  /** With a stored literal's first row the query has all its rows. */
  lemma {:induction false} SelectsLiteral(s: Schema, t: Tables, v: Value, expected: Typed, id: int, roots: set<int>, ids: set<int>)
    requires Stored(s, t, v, expected, id) && Closed(t, roots, ids) && id in ids
    ensures forall i :: id <= i < id + Size(v) ==> i in ids
    decreases v, 0
  {
    if v.kind.Composite() {
      SelectsChildren(s, t, v.children, v.kind, expected, id, id + 1, roots, ids);
    }
  }

  lemma {:induction false} SelectsChildren(s: Schema, t: Tables, children: seq<Child>, parent: Kind, expected: Typed,
                                           parentId: int, id: int, roots: set<int>, ids: set<int>)
    requires StoredChildren(s, t, children, parent, expected, parentId, id) && Closed(t, roots, ids) && parentId in ids
    ensures forall i :: id <= i < id + Sizes(children) ==> i in ids
    decreases children, 1
  {
    if children != [] {
      var e := ChildExpectation(s, parent, expected, children[0]);
      assert StoredChild(s, t, children[0], parent, expected, parentId, id);
      SelectsLiteral(s, t, children[0].value, e.value, id, roots, ids);
      SelectsChildren(s, t, children[1..], parent, expected, parentId, id + Size(children[0].value), roots, ids);
    }
  }

  // ---------------------------------------------------------------------------
  // Both loops of the rebuild
  // ---------------------------------------------------------------------------

  /** The nodes of the selected rows, each with its children. */
  method Rebuild(t: Tables, ids: set<int>) returns (flat: map<int, Node>)
    requires forall i :: i in ids ==> i in t.values
    ensures Nodes(t, ids, flat) && Assembled(t, flat, ids)
  {
    hide Collected, Attached;
    flat := CreateNodes(t, ids);
    NothingAttached(t, flat);
    var todo := ids;
    assert ids - todo == {};
    while todo != {}
      invariant todo <= ids && Nodes(t, ids, flat) && Assembled(t, flat, ids - todo)
      invariant forall i :: i in flat ==> fresh(flat[i])
    {
      var i := AnyOf(todo);
      assert i !in ids - todo && flat.Keys == ids;
      Attach(t, flat, ids - todo, i);
      assert ids - todo + {i} == ids - (todo - {i});
      todo := todo - {i};
    }
    assert ids - todo == ids;
  }

  lemma NothingAttached(t: Tables, flat: map<int, Node>)
    requires forall i :: i in flat ==> flat[i].children == []
    ensures Assembled(t, flat, {})
  {}

  method CreateNodes(t: Tables, ids: set<int>) returns (flat: map<int, Node>)
    requires forall i :: i in ids ==> i in t.values
    ensures Nodes(t, ids, flat)
    ensures forall i :: i in flat ==> flat[i].children == [] && fresh(flat[i])
  {
    flat := map[];
    var todo := ids;
    while todo != {}
      invariant todo <= ids && Nodes(t, ids - todo, flat)
      invariant forall i :: i in flat ==> flat[i].children == [] && fresh(flat[i])
    {
      var i := AnyOf(todo);
      var node := new Node(i, t.values[i], LinkOf(t, i));
      flat := flat[i := node];
      todo := todo - {i};
    }
    assert ids - todo == ids;
  }

  method Attach(t: Tables, flat: map<int, Node>, ghost done: set<int>, i: int)
    requires Nodes(t, flat.Keys, flat) && Assembled(t, flat, done) && i in flat && i !in done
    modifies flat.Values
    ensures Assembled(t, flat, done + {i})
  {
    var node := flat[i];
    if node.parent.Some? && node.parent.value in flat {
      var parentNode := flat[node.parent.value];
      forall k | 0 <= k < |parentNode.children| ensures parentNode.children[k] != node {
        assert Collected(t, flat, done, parentNode.id) && Attached(t, done, parentNode.id, parentNode.children[k].id);
      }
      parentNode.children := parentNode.children + [node];
    }
    forall j | j in flat ensures Collected(t, flat, done + {i}, j) {
      assert old(Collected(t, flat, done, j));
    }
  }

  // ---------------------------------------------------------------------------
  // The rebuilt tree is the source literal, up to the order of children
  // ---------------------------------------------------------------------------

  /** The row of the k-th child when the first child sits at row id. */
  function ChildId(children: seq<Child>, k: nat, id: int): int
    requires k < |children|
    decreases k
  {
    if k == 0 then id else ChildId(children[1..], k - 1, id + Size(children[0].value))
  }

  lemma {:induction false} ChildIdBounds(children: seq<Child>, k: nat, id: int)
    requires k < |children|
    ensures id <= ChildId(children, k, id)
    ensures ChildId(children, k, id) + Size(children[k].value) <= id + Sizes(children)
    decreases k
  {
    if k > 0 { ChildIdBounds(children[1..], k - 1, id + Size(children[0].value)); }
  }

  lemma {:induction false} ChildIdOrder(children: seq<Child>, j: nat, k: nat, id: int)
    requires j < k < |children|
    ensures ChildId(children, j, id) + Size(children[j].value) <= ChildId(children, k, id)
    decreases j
  {
    if j == 0 {
      ChildIdBounds(children[1..], k - 1, id + Size(children[0].value));
    } else {
      ChildIdOrder(children[1..], j - 1, k - 1, id + Size(children[0].value));
    }
  }

  lemma {:induction false} StoredChildAt(s: Schema, t: Tables, children: seq<Child>, parent: Kind, expected: Typed, parentId: int, id: int, k: nat)
    requires StoredChildren(s, t, children, parent, expected, parentId, id) && k < |children|
    ensures StoredChild(s, t, children[k], parent, expected, parentId, ChildId(children, k, id))
    decreases k
  {
    if k > 0 {
      StoredChildAt(s, t, children[1..], parent, expected, parentId, id + Size(children[0].value), k - 1);
    }
  }

  /** Where a row below a literal hangs: directly below it as some child, or inside one. */
  lemma {:induction false} LinkInside(s: Schema, t: Tables, children: seq<Child>, parent: Kind, expected: Typed, parentId: int, id: int, i: int) returns (k: nat)
    requires StoredChildren(s, t, children, parent, expected, parentId, id) && id <= i < id + Sizes(children)
    ensures k < |children| && i in t.links
    ensures var c := ChildId(children, k, id);
            && c <= i < c + Size(children[k].value)
            && if i == c then t.links[i].parent == parentId else c <= t.links[i].parent < c + Size(children[k].value)
    decreases children, 1
  {
    var size := Size(children[0].value);
    if i < id + size {
      k := 0;
      if id < i {
        LinkBelow(s, t, children[0].value, ChildExpectation(s, parent, expected, children[0]).value, id, i);
      }
    } else {
      var j := LinkInside(s, t, children[1..], parent, expected, parentId, id + size, i);
      k := j + 1;
    }
  }

  lemma {:induction false} LinkBelow(s: Schema, t: Tables, v: Value, expected: Typed, id: int, i: int)
    requires Stored(s, t, v, expected, id) && id < i < id + Size(v)
    ensures i in t.links && id <= t.links[i].parent < id + Size(v)
    decreases v, 0
  {
    var k := LinkInside(s, t, v.children, v.kind, expected, id, id + 1, i);
    ChildIdBounds(v.children, k, id + 1);
  }

  /** A child's rows are as isolated as its parent's. */
  lemma ChildIsolated(s: Schema, t: Tables, v: Value, expected: Typed, id: int, k: nat)
    requires Stored(s, t, v, expected, id) && v.kind.Composite() && Isolated(t, id, id + Size(v)) && k < |v.children|
    ensures var c := ChildId(v.children, k, id + 1); Isolated(t, c, c + Size(v.children[k].value))
  {
    var c := ChildId(v.children, k, id + 1);
    var hi := c + Size(v.children[k].value);
    ChildIdBounds(v.children, k, id + 1);
    forall i | i in t.links && !(c < i < hi) ensures !(c <= t.links[i].parent < hi) {
      if id < i < id + Size(v) {
        var j := LinkInside(s, t, v.children, v.kind, expected, id, id + 1, i);
        if j < k {
          ChildIdOrder(v.children, j, k, id + 1);
        } else if k < j {
          ChildIdOrder(v.children, k, j, id + 1);
        }
      }
    }
  }

  /** The node with the given id is the literal: same kind and text, and its children list is
      a permutation of nodes that are the literal's children, names included. */
  ghost predicate Represents(flat: map<int, Node>, v: Value, id: int)
    reads flat.Values
    decreases v
  {
    && id in flat && flat[id].id == id && flat[id].kind == v.kind && flat[id].raw == v.raw
    && (forall a, b :: 0 <= a < b < |flat[id].children| ==> flat[id].children[a] != flat[id].children[b])
    && (if v.kind.Composite() then
          && (forall a :: 0 <= a < |flat[id].children| ==> IsSomeChild(flat, v.children, id + 1, flat[id].children[a]))
          && (forall k :: 0 <= k < |v.children| ==> HasChild(flat, v, id, k))
        else flat[id].children == [])
  }

  /** The k-th child of the literal is among the children of its node. */
  ghost predicate HasChild(flat: map<int, Node>, v: Value, id: int, k: nat)
    requires k < |v.children| && id in flat
    reads flat.Values
    decreases v, 0
  {
    var c := ChildId(v.children, k, id + 1);
    c in flat && flat[c] in flat[id].children && flat[c].name == v.children[k].name && Represents(flat, v.children[k].value, c)
  }

  ghost predicate IsSomeChild(flat: map<int, Node>, children: seq<Child>, id: int, n: Node)
  {
    exists k :: 0 <= k < |children| && ChildId(children, k, id) in flat && n == flat[ChildId(children, k, id)]
  }

  /** Whatever order the nodes were attached in, the tree at a stored literal's row is that
      literal up to the order of children; ids grow downwards, so there is no cycle. */
  lemma {:induction false} RebuildsLiteral(s: Schema, t: Tables, v: Value, expected: Typed, id: int, ids: set<int>, flat: map<int, Node>)
    requires Stored(s, t, v, expected, id) && Isolated(t, id, id + Size(v))
    requires Nodes(t, ids, flat) && Assembled(t, flat, ids) && forall i :: id <= i < id + Size(v) ==> i in ids
    ensures Represents(flat, v, id)
    decreases v
  {
    assert Collected(t, flat, ids, id);
    forall a | 0 <= a < |flat[id].children|
      ensures v.kind.Composite() && IsSomeChild(flat, v.children, id + 1, flat[id].children[a])
    {
      var n := flat[id].children[a];
      assert Attached(t, ids, id, n.id);
      var k := LinkInside(s, t, v.children, v.kind, expected, id, id + 1, n.id);
      ChildIdBounds(v.children, k, id + 1);
      assert n == flat[ChildId(v.children, k, id + 1)];
    }
    assert |flat[id].children| > 0 ==> IsSomeChild(flat, v.children, id + 1, flat[id].children[0]);
    if v.kind.Composite() {
      forall k | 0 <= k < |v.children| ensures HasChild(flat, v, id, k) {
        var c := ChildId(v.children, k, id + 1);
        ChildIdBounds(v.children, k, id + 1);
        StoredChildAt(s, t, v.children, v.kind, expected, id, id + 1, k);
        ChildIsolated(s, t, v, expected, id, k);
        assert Attached(t, ids, id, c);
        RebuildsLiteral(s, t, v.children[k].value, ChildExpectation(s, v.kind, expected, v.children[k]).value, c, ids, flat);
      }
    }
  }
}
