// Checking @with arguments on rebuilt trees
// (packages/houdini-core/plugin/fragmentArguments/validate.go): the recursive type check over
// the nodes and the loop over the arguments of one directive.
module ArgumentChecks {
  import opened Wrappers
  import opened TypeRefs
  import opened ArgumentValues
  import opened ArgumentRows
  import opened ArgumentVerdicts
  import opened ArgumentTrees

  /** The literal's child that node a of the children list stands for. */
  lemma ChildIndex(flat: map<int, Node>, v: Value, id: int, a: nat) returns (k: nat)
    requires Represents(flat, v, id) && a < |flat[id].children|
    ensures v.kind.Composite() && k < |v.children| && HasChild(flat, v, id, k)
    ensures flat[id].children[a] == flat[ChildId(v.children, k, id + 1)]
    ensures flat[id].children[a].id == ChildId(v.children, k, id + 1)
  {
    assert IsSomeChild(flat, v.children, id + 1, flat[id].children[a]);
    k :| k < |v.children| && ChildId(v.children, k, id + 1) in flat && flat[id].children[a] == flat[ChildId(v.children, k, id + 1)];
    assert HasChild(flat, v, id, k);
    assert Represents(flat, v.children[k].value, ChildId(v.children, k, id + 1));
  }

  /** checkTypeCompatibility: whatever the order of the children, the verdict is the one on
      the source literal. */
  method CheckTypeCompatibility(s: Schema, node: Node, typ: string, ref: TypeRef, ghost flat: map<int, Node>, ghost v: Value)
    returns (ok: bool)
    requires Represents(flat, v, node.id) && flat[node.id] == node
    ensures ok <==> Check(s, v, typ, ref)
    decreases v, 1
  {
    match node.kind
    case NullKind => ok := !ref.nonNull;
    case ListKind =>
      if !ref.ListOf? {
        return false;
      }
      ok := CheckNodeItems(s, node, typ, ref.inner, flat, v);
    case ObjectKind =>
      if typ !in s.kinds {
        return true;
      }
      if s.kinds[typ] != INPUT {
        return false;
      }
      ok := CheckNodeFields(s, node, typ, flat, v);
    case EnumKind =>
      ok := typ !in s.kinds || (s.kinds[typ] == ENUM && (typ, node.raw) in s.enumValues);
    case _ =>
      match BuiltInAssignable(typ, node.kind)
      case Some(assignable) => ok := assignable;
      case None =>
        if typ !in s.kinds {
          return true;
        }
        match s.kinds[typ]
        case SCALAR => ok := (typ, node.kind.Unblocked()) in s.scalarInputs;
        case ENUM => ok := false;
        case INPUT => ok := false;
        case _ => ok := true;
  }

  method CheckNodeItems(s: Schema, node: Node, typ: string, inner: TypeRef, ghost flat: map<int, Node>, ghost v: Value)
    returns (ok: bool)
    requires Represents(flat, v, node.id) && flat[node.id] == node && v.kind.ListKind?
    ensures ok <==> CheckItems(s, v.children, typ, inner)
    decreases v, 0
  {
    CheckItemsAll(s, v.children, typ, inner);
    var i := 0;
    while i < |node.children|
      invariant 0 <= i <= |node.children|
      invariant forall k :: 0 <= k < |v.children| && Seen(flat, v, node, k, i) ==> Check(s, v.children[k].value, typ, inner)
    {
      var child := node.children[i];
      ghost var k := ChildIndex(flat, v, node.id, i);
      var fine := CheckTypeCompatibility(s, child, typ, inner, flat, v.children[k].value);
      if !fine {
        return false;
      }
      SeenNext(flat, v, node, i, k);
      forall j | 0 <= j < |v.children| && Seen(flat, v, node, j, i + 1) ensures Check(s, v.children[j].value, typ, inner) {
        assert j == k || Seen(flat, v, node, j, i);
      }
      i := i + 1;
    }
    forall k | 0 <= k < |v.children| ensures Seen(flat, v, node, k, |node.children|) {
      assert HasChild(flat, v, node.id, k);
    }
    return true;
  }

  method CheckNodeFields(s: Schema, node: Node, typ: string, ghost flat: map<int, Node>, ghost v: Value)
    returns (ok: bool)
    requires Represents(flat, v, node.id) && flat[node.id] == node && v.kind.ObjectKind?
    ensures ok <==> CheckFields(s, v.children, typ)
    decreases v, 0
  {
    CheckFieldsAll(s, v.children, typ);
    var i := 0;
    while i < |node.children|
      invariant 0 <= i <= |node.children|
      invariant forall k :: 0 <= k < |v.children| && Seen(flat, v, node, k, i) ==> CheckField(s, v.children[k], typ)
    {
      var child := node.children[i];
      ghost var k := ChildIndex(flat, v, node.id, i);
      if (typ, child.name) !in s.typeFields {
        return false;
      }
      var field := s.typeFields[(typ, child.name)];
      var ref := ParseTypeRef(field.modifiers);
      var fine := CheckTypeCompatibility(s, child, field.name, ref, flat, v.children[k].value);
      if !fine {
        return false;
      }
      SeenNext(flat, v, node, i, k);
      forall j | 0 <= j < |v.children| && Seen(flat, v, node, j, i + 1) ensures CheckField(s, v.children[j], typ) {
        assert j == k || Seen(flat, v, node, j, i);
      }
      i := i + 1;
    }
    forall k | 0 <= k < |v.children| ensures Seen(flat, v, node, k, |node.children|) {
      assert HasChild(flat, v, node.id, k);
    }
    return true;
  }

  /** The node of the literal's k-th child is among the first i of the children list. */
  ghost predicate Seen(flat: map<int, Node>, v: Value, node: Node, k: nat, i: nat)
    requires k < |v.children| && i <= |node.children|
    reads node
  {
    var c := ChildId(v.children, k, node.id + 1);
    c in flat && flat[c] in node.children[..i]
  }

  lemma SeenNext(flat: map<int, Node>, v: Value, node: Node, i: nat, k: nat)
    requires Represents(flat, v, node.id) && flat[node.id] == node && v.kind.Composite()
    requires i < |node.children| && k < |v.children| && node.children[i].id == ChildId(v.children, k, node.id + 1)
    ensures forall j :: 0 <= j < |v.children| && Seen(flat, v, node, j, i + 1) ==> j == k || Seen(flat, v, node, j, i)
  {
    forall j | 0 <= j < |v.children| && Seen(flat, v, node, j, i + 1) ensures j == k || Seen(flat, v, node, j, i) {
      assert HasChild(flat, v, node.id, j);
      assert Represents(flat, v.children[j].value, ChildId(v.children, j, node.id + 1));
      assert node.children[..i + 1] == node.children[..i] + [node.children[i]];
      if flat[ChildId(v.children, j, node.id + 1)] == node.children[i] && j != k {
        if j < k {
          ChildIdOrder(v.children, j, k, node.id + 1);
        } else {
          ChildIdOrder(v.children, k, j, node.id + 1);
        }
      }
    }
  }

  // ---------------------------------------------------------------------------
  // One @with directive
  // ---------------------------------------------------------------------------

  datatype Variable = Variable(name: string, typ: string, modifiers: string)
  datatype Argument = Argument(name: string, value: Node)
  datatype Outcome = Fine | NoSuchVariable(name: string) | WrongType(name: string) | Missing(name: string)

  /** The declared variable an argument is checked against: the first of that name. */
  ghost predicate Declares(vars: seq<Variable>, name: string, j: int)
  {
    0 <= j < |vars| && vars[j].name == name && forall i :: 0 <= i < j ==> vars[i].name != name
  }

  ghost predicate Declared(vars: seq<Variable>, name: string)
  {
    exists j: int :: Declares(vars, name, j)
  }

  /** The argument's literal has the type of its variable. */
  ghost predicate Fits(s: Schema, vars: seq<Variable>, name: string, v: Value)
  {
    exists j :: Declares(vars, name, j) && Check(s, v, vars[j].typ, Decode(vars[j].modifiers))
  }

  lemma DeclaresOnce(vars: seq<Variable>, name: string, i: int, j: int)
    requires Declares(vars, name, i) && Declares(vars, name, j)
    ensures i == j
  {
  }

  ghost predicate Passed(args: seq<Argument>, name: string)
  {
    exists k :: 0 <= k < |args| && args[k].name == name
  }

  ghost predicate Given(flat: map<int, Node>, args: seq<Argument>, values: seq<Value>)
    reads flat.Values
  {
    |values| == |args| &&
    forall k :: 0 <= k < |args| ==> Represents(flat, values[k], args[k].value.id) && flat[args[k].value.id] == args[k].value
  }

  method FindVariable(vars: seq<Variable>, name: string) returns (j: nat)
    ensures if j < |vars| then Declares(vars, name, j) else j == |vars| && !Declared(vars, name)
  {
    j := 0;
    while j < |vars| && vars[j].name != name
      invariant j <= |vars| && forall i :: 0 <= i < j ==> vars[i].name != name
    {
      j := j + 1;
    }
  }

  /** One argument: its variable is found, and its value checked against the variable's type. */
  method CheckArgument(s: Schema, arg: Argument, vars: seq<Variable>, ghost flat: map<int, Node>, ghost v: Value) returns (r: Outcome)
    requires Represents(flat, v, arg.value.id) && arg.value == flat[arg.value.id]
    ensures r == Fine || r == NoSuchVariable(arg.name) || r == WrongType(arg.name)
    ensures r.Fine? <==> Fits(s, vars, arg.name, v)
    ensures r.NoSuchVariable? <==> !Declared(vars, arg.name)
  {
    var j := FindVariable(vars, arg.name);
    if j == |vars| {
      return NoSuchVariable(arg.name);
    }
    var ref := ParseTypeRef(vars[j].modifiers);
    var fine := CheckTypeCompatibility(s, arg.value, vars[j].typ, ref, flat, v);
    forall o | Declares(vars, arg.name, o) ensures o == j { DeclaresOnce(vars, arg.name, o, j); }
    r := if fine then Fine else WrongType(arg.name);
  }

  /** The loop over the arguments; passed holds their names. */
  method CheckArguments(s: Schema, args: seq<Argument>, vars: seq<Variable>, ghost flat: map<int, Node>, ghost values: seq<Value>)
    returns (r: Outcome, ghost at: nat, passed: set<string>)
    requires Given(flat, args, values)
    ensures r.Fine? <==> forall k :: 0 <= k < |args| ==> Fits(s, vars, args[k].name, values[k])
    ensures r.Fine? ==> forall name :: name in passed <==> Passed(args, name)
    ensures !r.Missing?
    ensures r.NoSuchVariable? || r.WrongType? ==>
      && at < |args| && r.name == args[at].name && !Fits(s, vars, args[at].name, values[at])
      && (r.NoSuchVariable? <==> !Declared(vars, r.name))
      && (forall k :: 0 <= k < at ==> Fits(s, vars, args[k].name, values[k]))
  {
    hide Fits, Declared, Represents;
    passed := {};
    var i := 0;
    while i < |args|
      invariant 0 <= i <= |args|
      invariant forall name :: name in passed <==> exists k :: 0 <= k < i && args[k].name == name
      invariant forall k :: 0 <= k < i ==> Fits(s, vars, args[k].name, values[k])
    {
      passed := passed + {args[i].name};
      r := CheckArgument(s, args[i], vars, flat, values[i]);
      if !r.Fine? {
        return r, i, passed;
      }
      i := i + 1;
    }
    return Fine, 0, passed;
  }

  /** validateWithArguments: the first argument without a variable or of the wrong type is
      reported; if there is none, the first required variable that was not passed. */
  method ValidateWithArguments(s: Schema, args: seq<Argument>, vars: seq<Variable>, ghost flat: map<int, Node>, ghost values: seq<Value>)
    returns (r: Outcome, ghost at: nat)
    requires Given(flat, args, values)
    ensures r.Fine? <==>
      && (forall k :: 0 <= k < |args| ==> Fits(s, vars, args[k].name, values[k]))
      && (forall j :: 0 <= j < |vars| && HasSuffix(vars[j].modifiers, '!') ==> Passed(args, vars[j].name))
    ensures r.NoSuchVariable? || r.WrongType? ==>
      && at < |args| && r.name == args[at].name && !Fits(s, vars, args[at].name, values[at])
      && (r.NoSuchVariable? <==> !Declared(vars, r.name))
      && (forall k :: 0 <= k < at ==> Fits(s, vars, args[k].name, values[k]))
    ensures r.Missing? ==>
      && at < |vars| && r.name == vars[at].name && HasSuffix(vars[at].modifiers, '!') && !Passed(args, r.name)
      && (forall j :: 0 <= j < at && HasSuffix(vars[j].modifiers, '!') ==> Passed(args, vars[j].name))
      && (forall k :: 0 <= k < |args| ==> Fits(s, vars, args[k].name, values[k]))
  {
    hide Fits, Declared, Represents, Given;
    var passed;
    r, at, passed := CheckArguments(s, args, vars, flat, values);
    if !r.Fine? {
      return;
    }
    var i := 0;
    while i < |vars|
      invariant 0 <= i <= |vars|
      invariant forall j :: 0 <= j < i && HasSuffix(vars[j].modifiers, '!') ==> Passed(args, vars[j].name)
    {
      if HasSuffix(vars[i].modifiers, '!') && vars[i].name !in passed {
        return Missing(vars[i].name), i;
      }
      i := i + 1;
    }
    return Fine, 0;
  }

  // ---------------------------------------------------------------------------
  // End to end
  // ---------------------------------------------------------------------------

  /** The trees behind the @with arguments: the query selects their literals' rows, and the rebuild
      gives their nodes and those below. */
  method LoadTrees(store: ArgumentStore, roots: set<int>, ghost rs: seq<Root>) returns (flat: map<int, Node>)
    requires store.Valid() && forall k :: 0 <= k < |rs| ==> rs[k] in store.roots && rs[k].id in roots
    ensures forall k :: 0 <= k < |rs| ==> Loaded(flat, rs[k])
  {
    hide Represents;
    var ids := Select(Tables(store.values, store.links), roots);
    flat := Rebuild(Tables(store.values, store.links), ids);
    forall k | 0 <= k < |rs| ensures Loaded(flat, rs[k]) {
      var r := rs[k];
      assert store.Kept(r);
      SelectsLiteral(store.schema, store.Contents(), r.value, r.expected, r.id, roots, ids);
      RebuildsLiteral(store.schema, store.Contents(), r.value, r.expected, r.id, ids, flat);
      assert r.id in ids;
    }
  }

  /** The node of a stored literal is that literal. */
  ghost predicate Loaded(flat: map<int, Node>, r: Root)
    reads flat.Values
  {
    r.id in flat && flat[r.id].id == r.id && Represents(flat, r.value, r.id)
  }

  /** An argument of a directive, as the query over directives gives it. */
  datatype RawArgument = RawArgument(name: string, id: int)

  ghost predicate PassedRaw(raw: seq<RawArgument>, name: string)
  {
    exists k :: 0 <= k < |raw| && raw[k].name == name
  }

  lemma SamePassed(raw: seq<RawArgument>, args: seq<Argument>, name: string)
    requires |raw| == |args| && forall k :: 0 <= k < |raw| ==> args[k].name == raw[k].name
    ensures PassedRaw(raw, name) <==> Passed(args, name)
  {
    if PassedRaw(raw, name) {
      var k :| 0 <= k < |raw| && raw[k].name == name;
      assert args[k].name == name;
    }
  }

  ghost predicate Names(flat: map<int, Node>, raw: RawArgument, arg: Argument)
  {
    raw.id in flat && arg == Argument(raw.name, flat[raw.id])
  }

  /** The nodes of a directive's arguments. */
  method FindNodes(flat: map<int, Node>, raw: seq<RawArgument>, ghost rs: seq<Root>) returns (args: seq<Argument>)
    requires |rs| == |raw| && forall k :: 0 <= k < |rs| ==> Loaded(flat, rs[k]) && rs[k].id == raw[k].id
    ensures |args| == |raw| && forall k :: 0 <= k < |raw| ==> Names(flat, raw[k], args[k])
  {
    hide Represents;
    args := [];
    for i := 0 to |raw|
      invariant |args| == i && forall k :: 0 <= k < i ==> Names(flat, raw[k], args[k])
    {
      assert Loaded(flat, rs[i]);
      args := args + [Argument(raw[i].name, flat[raw[i].id])];
    }
  }

  /** One @with directive, from the tables to the verdict: whatever types its literals were stored
      under, the first argument without a variable, or whose literal does not fit it, is reported;
      if there is none, the first required variable that was not passed. */
  method CheckDirective(store: ArgumentStore, roots: set<int>, raw: seq<RawArgument>, vars: seq<Variable>, ghost rs: seq<Root>)
    returns (r: Outcome, ghost at: nat)
    requires store.Valid() && |rs| == |raw|
    requires forall k :: 0 <= k < |rs| ==> rs[k] in store.roots && rs[k].id == raw[k].id && raw[k].id in roots
    ensures r.Fine? <==>
      && (forall k :: 0 <= k < |raw| ==> Fits(store.schema, vars, raw[k].name, rs[k].value))
      && (forall j :: 0 <= j < |vars| && HasSuffix(vars[j].modifiers, '!') ==> PassedRaw(raw, vars[j].name))
    ensures r.NoSuchVariable? || r.WrongType? ==>
      && at < |raw| && r.name == raw[at].name && !Fits(store.schema, vars, raw[at].name, rs[at].value)
      && (r.NoSuchVariable? <==> !Declared(vars, r.name))
      && (forall k :: 0 <= k < at ==> Fits(store.schema, vars, raw[k].name, rs[k].value))
    ensures r.Missing? ==>
      && at < |vars| && r.name == vars[at].name && HasSuffix(vars[at].modifiers, '!') && !PassedRaw(raw, r.name)
      && (forall j :: 0 <= j < at && HasSuffix(vars[j].modifiers, '!') ==> PassedRaw(raw, vars[j].name))
      && (forall k :: 0 <= k < |raw| ==> Fits(store.schema, vars, raw[k].name, rs[k].value))
  {
    hide Represents, Fits, Declared, Passed, PassedRaw, HasSuffix;
    var flat := LoadTrees(store, roots, rs);
    var args := FindNodes(flat, raw, rs);
    ghost var values := seq(|rs|, k requires 0 <= k < |rs| => rs[k].value);
    assert forall k :: 0 <= k < |rs| ==> Loaded(flat, rs[k]) && Names(flat, raw[k], args[k]) && values[k] == rs[k].value;
    r, at := ValidateWithArguments(store.schema, args, vars, flat, values);
    forall name ensures PassedRaw(raw, name) <==> Passed(args, name) { SamePassed(raw, args, name); }
  }

  /** One literal in two places of a document: as the argument of a field, judged row by row under
      the field's type, and as a @with argument among any others, judged on the tree rebuilt for it
      against a variable of that type. The verdicts agree, and both are that on the literal itself. */
  method CompareVerdicts(store: ArgumentStore, roots: set<int>, ghost field: Root, ghost arg: Root, id: int, typ: string,
                         ref: TypeRef)
    returns (ok: bool)
    requires store.Valid() && field in store.roots && field.expected == Typed(typ, Encode(ref))
    requires arg in store.roots && arg.value == field.value && arg.id == id && id in roots
    requires WellFormedFields(store.schema) && RegularFrom(store.schema, typ) && !Synthetic(typ) && WellNamed(field.value)
    ensures ok <==> Clean(store.schema, store.Contents(), field.id, field.id + Size(field.value))
    ensures ok <==> Check(store.schema, arg.value, typ, ref)
  {
    hide Clean, Check, Represents;
    var flat := LoadTrees(store, roots, [arg]);
    assert Loaded(flat, [arg][0]);
    ok := CheckTypeCompatibility(store.schema, flat[id], typ, ref, flat, arg.value);
    assert store.Kept(field);
    RowsAgree(store.schema, store.Contents(), field.value, typ, ref, field.id);
  }
}
