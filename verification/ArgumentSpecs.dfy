// The literals of @with: they are stored under a synthetic type, not under that of the variable
// they are passed to (loadDocuments.go), so the row-by-row check judges them by other rules
// (assignability.go, schema/write.go).
module ArgumentSpecs {
  import opened Wrappers
  import opened TypeRefs
  import opened ArgumentValues
  import opened ArgumentRows
  import opened ArgumentVerdicts

  /** What the compiler itself adds to every schema: the synthetic type has one field, String is a
      scalar, and no other built-in name stands for anything but a scalar. */
  ghost predicate KnowsSpecification(s: Schema)
  {
    && (ARGUMENT_SPECIFICATION, "type") in s.typeFields
    && s.typeFields[(ARGUMENT_SPECIFICATION, "type")] == Typed("String", "!")
    && (forall k :: k in s.typeFields ==> k.0 != "" && (k.0 == ARGUMENT_SPECIFICATION ==> k.1 == "type"))
    && Regular(s, "String")
    && (forall name :: name in s.kinds && BuiltIn(name) ==> s.kinds[name] == SCALAR)
  }

  /** A default value is stored under its own kind's name, which for a block is no built-in type. */
  predicate BlocksFit(s: Schema)
  {
    "Block" in s.kinds ==>
      match s.kinds["Block"]
      case SCALAR => ("Block", StringKind) in s.scalarInputs
      case ENUM => false
      case INPUT => false
      case _ => true
  }

  /** The objects reached from the top of a literal through lists alone give a field named type only
      string and block literals, and one named defaultValue only what fits. */
  predicate Passes(s: Schema, v: Value)
    decreases v, 0
  {
    v.kind.Composite() ==> PassesAll(s, v.children, v.kind)
  }

  predicate PassesAll(s: Schema, children: seq<Child>, parent: Kind)
    decreases children, 1
  {
    children == [] || (PassesChild(s, children[0], parent) && PassesAll(s, children[1..], parent))
  }

  predicate PassesChild(s: Schema, c: Child, parent: Kind)
    decreases c, 0
  {
    if parent.ListKind? then Passes(s, c.value) else FieldPasses(s, c.name, c.value.kind)
  }

  predicate FieldPasses(s: Schema, name: string, kind: Kind)
  {
    && (name == "type" ==> kind.StringKind? || kind.BlockKind?)
    && (name == "defaultValue" && kind.BlockKind? ==> BlocksFit(s))
  }

  /** The row's parent is of no type or the synthetic one. */
  predicate Quiet(t: Tables, id: int)
  {
    id in t.links && t.links[id].parent in t.values ==>
      t.values[t.links[id].parent].expected.name in {"", ARGUMENT_SPECIFICATION}
  }

  /** Nothing below a field the synthetic type does not have is reported. */
  lemma {:induction false} UntypedClean(s: Schema, t: Tables, v: Value, modifiers: string, id: int)
    requires KnowsSpecification(s) && Stored(s, t, v, Typed("", modifiers), id) && Quiet(t, id)
    ensures Clean(s, t, id, id + Size(v))
    decreases v, 0
  {
    if v.kind.Composite() {
      UntypedChildrenClean(s, t, v.children, v.kind, modifiers, id, id + 1);
    }
  }

  lemma {:induction false} UntypedChildrenClean(s: Schema, t: Tables, children: seq<Child>, parent: Kind,
                                                modifiers: string, parentId: int, id: int)
    requires KnowsSpecification(s) && parentId in t.values && t.values[parentId].expected.name == ""
    requires StoredChildren(s, t, children, parent, Typed("", modifiers), parentId, id)
    ensures Clean(s, t, id, id + Sizes(children))
    decreases children, 1
  {
    if children != [] {
      var c := children[0];
      var e := ChildExpectation(s, parent, Typed("", modifiers), c);
      assert StoredChild(s, t, c, parent, Typed("", modifiers), parentId, id);
      assert parent.ListKind? || ("", c.name) !in s.typeFields;
      UntypedClean(s, t, c.value, e.value.modifiers, id);
      UntypedChildrenClean(s, t, children[1..], parent, modifiers, parentId, id + Size(c.value));
      CleanSplit(s, t, id, id + Size(c.value), id + Sizes(children));
    }
  }

  lemma HeadJudged(s: Schema, t: Tables, v: Value, expected: Typed, id: int)
    requires Stored(s, t, v, expected, id) && expected.name != ""
    ensures Clean(s, t, id, id + 1) <==> ValidRow(s, Row(v.kind, v.raw, expected))
    ensures !v.kind.Composite() ==> Size(v) == 1
    ensures Clean(s, t, id, id + Size(v)) ==> Clean(s, t, id, id + 1)
  {
    assert Clean(s, t, id, id + 1) <==> !Reported(s, t, id);
  }

  /** The synthetic type's own field takes a string. */
  lemma TypeFieldClean(s: Schema, t: Tables, v: Value, id: int)
    requires KnowsSpecification(s) && Stored(s, t, v, Typed("String", "!"), id)
    ensures Clean(s, t, id, id + Size(v)) <==> v.kind.StringKind? || v.kind.BlockKind?
  {
    HeadJudged(s, t, v, Typed("String", "!"), id);
    assert HasSuffix("!", '!') && !Decode("!").ListOf?;
  }

  /** A default value's row expects its own kind. */
  lemma DefaultValueClean(s: Schema, t: Tables, v: Value, modifiers: string, expected: Typed, id: int)
    requires KnowsSpecification(s) && Stored(s, t, v, expected, id)
    requires ChildExpectation(s, ObjectKind, Typed(ARGUMENT_SPECIFICATION, modifiers), Child("defaultValue", v)) == Some(expected)
    ensures Clean(s, t, id, id + Size(v)) <==> (v.kind.BlockKind? ==> BlocksFit(s))
  {
    assert (ARGUMENT_SPECIFICATION, "defaultValue") !in s.typeFields;
    HeadJudged(s, t, v, expected, id);
  }

  lemma SpecificationFieldClean(s: Schema, t: Tables, c: Child, modifiers: string, parentId: int, id: int)
    requires KnowsSpecification(s) && parentId in t.values && t.values[parentId].expected.name == ARGUMENT_SPECIFICATION
    requires StoredChild(s, t, c, ObjectKind, Typed(ARGUMENT_SPECIFICATION, modifiers), parentId, id)
    ensures Clean(s, t, id, id + Size(c.value)) <==> FieldPasses(s, c.name, c.value.kind)
  {
    var e := ChildExpectation(s, ObjectKind, Typed(ARGUMENT_SPECIFICATION, modifiers), c);
    if c.name == "type" {
      TypeFieldClean(s, t, c.value, id);
    } else {
      assert (ARGUMENT_SPECIFICATION, c.name) !in s.typeFields;
      if c.name == "defaultValue" {
        assert Child(c.name, c.value) == c;
        DefaultValueClean(s, t, c.value, modifiers, e.value, id);
      } else {
        UntypedClean(s, t, c.value, "", id);
      }
    }
  }

  /** A literal passed to @with is free of row errors exactly if every object reached from its top
      through lists gives a field named type only strings (and a block default only where a type
      named Block takes it), whatever the type of the variable it is passed to. */
  lemma {:induction false} SpecificationClean(s: Schema, t: Tables, v: Value, modifiers: string, id: int)
    requires KnowsSpecification(s) && Stored(s, t, v, Typed(ARGUMENT_SPECIFICATION, modifiers), id)
    ensures Clean(s, t, id, id + Size(v)) <==> Passes(s, v)
    decreases v, 0
  {
    HeadJudged(s, t, v, Typed(ARGUMENT_SPECIFICATION, modifiers), id);
    if v.kind.Composite() {
      CleanSplit(s, t, id, id + 1, id + Size(v));
      SpecificationChildrenClean(s, t, v.children, v.kind, modifiers, id, id + 1);
    }
  }

  lemma {:induction false} SpecificationChildrenClean(s: Schema, t: Tables, children: seq<Child>, parent: Kind,
                                                      modifiers: string, parentId: int, id: int)
    requires KnowsSpecification(s) && parent.Composite()
    requires parentId in t.values && t.values[parentId].expected.name == ARGUMENT_SPECIFICATION
    requires StoredChildren(s, t, children, parent, Typed(ARGUMENT_SPECIFICATION, modifiers), parentId, id)
    ensures Clean(s, t, id, id + Sizes(children)) <==> PassesAll(s, children, parent)
    decreases children, 1
  {
    if children != [] {
      var c := children[0];
      assert StoredChild(s, t, c, parent, Typed(ARGUMENT_SPECIFICATION, modifiers), parentId, id);
      if parent.ListKind? {
        SpecificationClean(s, t, c.value, ItemModifiers(modifiers), id);
      } else {
        SpecificationFieldClean(s, t, c, modifiers, parentId, id);
      }
      SpecificationChildrenClean(s, t, children[1..], parent, modifiers, parentId, id + Size(c.value));
      CleanSplit(s, t, id, id + Size(c.value), id + Sizes(children));
    }
  }

  // ---------------------------------------------------------------------------
  // The literals of @when and @when_not
  // ---------------------------------------------------------------------------

  /** No object reached from the top of a literal through lists has a field. */
  predicate Fieldless(v: Value)
    decreases v, 0
  {
    (v.kind.ObjectKind? ==> v.children == []) && (v.kind.ListKind? ==> FieldlessAll(v.children))
  }

  predicate FieldlessAll(items: seq<Child>)
    decreases items, 1
  {
    items == [] || (Fieldless(items[0].value) && FieldlessAll(items[1..]))
  }

  /** A literal passed to @when or @when_not is free of row errors exactly if no object reached from
      its top through lists has a field: scalars, enums, null and lists of them always are. */
  lemma {:induction false} PassthroughClean(s: Schema, t: Tables, v: Value, modifiers: string, id: int)
    requires forall k :: k in s.typeFields ==> k.0 != WHEN_PASSTHROUGH
    requires WellNamed(v) && Stored(s, t, v, Typed(WHEN_PASSTHROUGH, modifiers), id)
    ensures Clean(s, t, id, id + Size(v)) <==> Fieldless(v)
    ensures !v.kind.Composite() ==> Fieldless(v)
    decreases v, 0
  {
    HeadJudged(s, t, v, Typed(WHEN_PASSTHROUGH, modifiers), id);
    if v.kind.ListKind? {
      CleanSplit(s, t, id, id + 1, id + Size(v));
      PassthroughItemsClean(s, t, v.children, modifiers, id, id + 1);
    } else if v.kind.ObjectKind? && v.children != [] {
      PassthroughFieldReported(s, t, v.children[0], modifiers, id, id + 1);
    }
  }

  lemma PassthroughFieldReported(s: Schema, t: Tables, c: Child, modifiers: string, parentId: int, id: int)
    requires (WHEN_PASSTHROUGH, c.name) !in s.typeFields && c.name != ""
    requires parentId in t.values && t.values[parentId].expected.name == WHEN_PASSTHROUGH
    requires StoredChild(s, t, c, ObjectKind, Typed(WHEN_PASSTHROUGH, modifiers), parentId, id)
    ensures id in t.values && Reported(s, t, id)
  {
    assert WHEN_PASSTHROUGH[2] != ARGUMENT_SPECIFICATION[2];
  }

  lemma {:induction false} PassthroughItemsClean(s: Schema, t: Tables, items: seq<Child>, modifiers: string,
                                                 parentId: int, id: int)
    requires forall k :: k in s.typeFields ==> k.0 != WHEN_PASSTHROUGH
    requires ChildrenWellNamed(items, ListKind)
    requires StoredChildren(s, t, items, ListKind, Typed(WHEN_PASSTHROUGH, modifiers), parentId, id)
    ensures Clean(s, t, id, id + Sizes(items)) <==> FieldlessAll(items)
    decreases items, 1
  {
    if items != [] {
      assert StoredChild(s, t, items[0], ListKind, Typed(WHEN_PASSTHROUGH, modifiers), parentId, id);
      PassthroughClean(s, t, items[0].value, ItemModifiers(modifiers), id);
      PassthroughItemsClean(s, t, items[1..], modifiers, parentId, id + Size(items[0].value));
      CleanSplit(s, t, id, id + Size(items[0].value), id + Sizes(items));
    }
  }

  // ---------------------------------------------------------------------------
  // A valid argument that is rejected
  // ---------------------------------------------------------------------------

  /** input Filter { type: Event } and enum Event { CLICK }. */
  function FilterSchema(): Schema
  {
    Schema(map["Filter" := INPUT, "Event" := ENUM, "String" := SCALAR], {("Event", "CLICK")},
      map[("Filter", "type") := Typed("Event", ""), (ARGUMENT_SPECIFICATION, "type") := Typed("String", "!")], {})
  }

  /** {type: CLICK} */
  function FilterLiteral(): Value { Value(ObjectKind, "", [Child("type", Leaf(EnumKind, "CLICK"))]) }

  lemma FilterIsRegular()
    ensures KnowsSpecification(FilterSchema()) && WellFormedFields(FilterSchema())
    ensures RegularFrom(FilterSchema(), "Filter")
  {
    var s := FilterSchema();
    DecodeEncode(Base(false));
    DecodeEncode(Base(true));
    forall fields, end | Leads(s, "Filter", fields, end) ensures Regular(s, end) {
      assert fields != [] ==> Leads(s, "Event", fields[1..], end);
    }
  }

  function FilterTables(): Tables
  {
    Tables(map[1 := Row(ObjectKind, "", Typed(ARGUMENT_SPECIFICATION, "!")), 2 := Row(EnumKind, "CLICK", Typed("String", "!"))],
      map[2 := Link(1, "type")])
  }

  /** @with(filter: {type: CLICK}) for a variable of type Filter: the recursive check accepts the
      literal, and the second of the rows it is stored as is reported. */
  lemma ValidFilterRejected(ref: TypeRef)
    ensures RegularFrom(FilterSchema(), "Filter") && Check(FilterSchema(), FilterLiteral(), "Filter", ref)
    ensures Stored(FilterSchema(), FilterTables(), FilterLiteral(), Typed(ARGUMENT_SPECIFICATION, "!"), 1)
    ensures Reported(FilterSchema(), FilterTables(), 2) && !Passes(FilterSchema(), FilterLiteral())
  {
    var s, v := FilterSchema(), FilterLiteral();
    FilterIsRegular();
    assert v.children[1..] == [] && !FieldPasses(s, "type", EnumKind);
    assert CheckFields(s, v.children, "Filter") <==> CheckField(s, v.children[0], "Filter");
    assert StoredChild(s, FilterTables(), v.children[0], ObjectKind, Typed(ARGUMENT_SPECIFICATION, "!"), 1, 2);
  }
}
