// Argument literals and the two ways their types are checked: row by row over the flattened
// table (assignability.go, ValidateWrongTypesToArg) and by recursion over the tree
// (fragmentArguments/validate.go). Both follow section 5.6.1 of the GraphQL specification
// (October 2021) with the list input coercion of section 3.11.
module ArgumentValues {
  import opened Wrappers
  import opened TypeRefs

  datatype Kind = IntKind | FloatKind | StringKind | BlockKind | BooleanKind | NullKind | EnumKind | ListKind | ObjectKind
  {
    predicate Composite() { ListKind? || ObjectKind? }

    /** Block strings count as strings. */
    function Unblocked(): Kind { if BlockKind? then StringKind else this }
  }

  /** A variable-free literal as parsed; only lists and objects look at their children. */
  datatype Value = Value(kind: Kind, raw: string, children: seq<Child>)
  datatype Child = Child(name: string, value: Value)

  datatype TypeKind = SCALAR | ENUM | INPUT | OBJECT | INTERFACE | UNION
  datatype Typed = Typed(name: string, modifiers: string)

  datatype Schema = Schema(
    kinds: map<string, TypeKind>,
    enumValues: set<(string, string)>,
    typeFields: map<(string, string), Typed>, // by parent and field name
    scalarInputs: set<(string, Kind)>)

  const ARGUMENT_SPECIFICATION := "__ArgumentSpecification"
  const WHEN_PASSTHROUGH := "__HOUDINI__PASSTHROUGH__"

  /** LiteralKindAssignable: None when the type is not a built-in scalar. */
  function BuiltInAssignable(typeName: string, literal: Kind): Option<bool>
  {
    var k := literal.Unblocked();
    if typeName == "Int" then Some(k.IntKind?)
    else if typeName == "Float" then Some(k.IntKind? || k.FloatKind?)
    else if typeName == "String" then Some(k.StringKind?)
    else if typeName == "Boolean" then Some(k.BooleanKind?)
    else if typeName == "ID" then Some(k.StringKind? || k.IntKind?)
    else None
  }

  predicate BuiltIn(typeName: string)
  {
    typeName in {"Int", "Float", "String", "Boolean", "ID"}
  }

  // ---------------------------------------------------------------------------
  // Row by row
  // ---------------------------------------------------------------------------

  /** A row of argument_values: a literal's kind and text with the type expected there. */
  datatype Row = Row(kind: Kind, raw: string, expected: Typed)

  predicate HasSuffix(s: string, c: char)
  {
    s != "" && s[|s| - 1] == c
  }

  /** validArgumentValue */
  predicate ValidRow(s: Schema, row: Row)
  {
    var typ := row.expected.name;
    if typ == ARGUMENT_SPECIFICATION || typ == WHEN_PASSTHROUGH then true
    else
      match row.kind
      case NullKind => !HasSuffix(row.expected.modifiers, '!')
      case ListKind => Decode(row.expected.modifiers).ListOf?
      case ObjectKind => typ in s.kinds && s.kinds[typ] == INPUT
      case EnumKind => typ in s.kinds && s.kinds[typ] == ENUM && (typ, row.raw) in s.enumValues
      case _ =>
        if typ !in s.kinds then true
        else
          match s.kinds[typ]
          case SCALAR =>
            (match BuiltInAssignable(typ, row.kind)
             case Some(assignable) => assignable
             case None => (typ, row.kind.Unblocked()) in s.scalarInputs)
          case ENUM => false
          case INPUT => false
          case _ => true
  }

  /** A row of argument_value_children, keyed by the child: its parent and field name, if any. */
  datatype Link = Link(parent: int, name: string)

  datatype Tables = Tables(values: map<int, Row>, links: map<int, Link>)

  /** The decision of ValidateWrongTypesToArg for one row. */
  predicate Reported(s: Schema, t: Tables, id: int)
    requires id in t.values
  {
    var row := t.values[id];
    if row.expected.name == "" then
      && id in t.links && t.links[id].name != "" && t.links[id].parent in t.values
      && t.values[t.links[id].parent].expected.name != ""
      && t.values[t.links[id].parent].expected.name != ARGUMENT_SPECIFICATION
    else !ValidRow(s, row)
  }

  // ---------------------------------------------------------------------------
  // By recursion
  // ---------------------------------------------------------------------------

  /** checkTypeCompatibility on the source literal. */
  predicate Check(s: Schema, v: Value, typ: string, ref: TypeRef)
    decreases v, 0
  {
    match v.kind
    case NullKind => !ref.nonNull
    case ListKind => ref.ListOf? && CheckItems(s, v.children, typ, ref.inner)
    case ObjectKind =>
      if typ !in s.kinds then true
      else s.kinds[typ] == INPUT && CheckFields(s, v.children, typ)
    case EnumKind => typ !in s.kinds || (s.kinds[typ] == ENUM && (typ, v.raw) in s.enumValues)
    case _ =>
      match BuiltInAssignable(typ, v.kind)
      case Some(assignable) => assignable
      case None =>
        if typ !in s.kinds then true
        else
          match s.kinds[typ]
          case SCALAR => (typ, v.kind.Unblocked()) in s.scalarInputs
          case ENUM => false
          case INPUT => false
          case _ => true
  }

  predicate CheckItems(s: Schema, items: seq<Child>, typ: string, ref: TypeRef)
    decreases items, 1
  {
    items == [] || (Check(s, items[0].value, typ, ref) && CheckItems(s, items[1..], typ, ref))
  }

  predicate CheckFields(s: Schema, fields: seq<Child>, typ: string)
    decreases fields, 1
  {
    fields == [] || (CheckField(s, fields[0], typ) && CheckFields(s, fields[1..], typ))
  }

  predicate CheckField(s: Schema, field: Child, typ: string)
    decreases field, 0
  {
    && (typ, field.name) in s.typeFields
    && Check(s, field.value, s.typeFields[(typ, field.name)].name, Decode(s.typeFields[(typ, field.name)].modifiers))
  }

  // ---------------------------------------------------------------------------
  // What the two agree on
  // ---------------------------------------------------------------------------

  /** The type is known, and a built-in name really is a scalar. */
  predicate Regular(s: Schema, typ: string)
  {
    typ in s.kinds && (BuiltIn(typ) ==> s.kinds[typ] == SCALAR)
  }

  predicate Synthetic(typ: string)
  {
    typ == "" || typ == ARGUMENT_SPECIFICATION || typ == WHEN_PASSTHROUGH
  }

  /** Fields of input objects have names, a type and well-formed modifiers. */
  ghost predicate WellFormedFields(s: Schema)
  {
    forall k :: k in s.typeFields && k.0 in s.kinds && s.kinds[k.0] == INPUT ==>
      && k.1 != "" && !Synthetic(s.typeFields[k].name)
      && Encode(Decode(s.typeFields[k].modifiers)) == s.typeFields[k].modifiers
  }

  /** The fields lead from one type to another, through input objects. */
  ghost predicate Leads(s: Schema, typ: string, fields: seq<string>, end: string)
    decreases |fields|
  {
    if fields == [] then typ == end
    else
      && typ in s.kinds && s.kinds[typ] == INPUT && (typ, fields[0]) in s.typeFields
      && Leads(s, s.typeFields[(typ, fields[0])].name, fields[1..], end)
  }

  /** Every type a literal of this type can mention is regular. */
  ghost predicate RegularFrom(s: Schema, typ: string)
  {
    forall fields, end :: Leads(s, typ, fields, end) ==> Regular(s, end)
  }

  lemma RegularBelow(s: Schema, typ: string, field: string)
    requires RegularFrom(s, typ)
    ensures Regular(s, typ)
    ensures s.kinds[typ] == INPUT && (typ, field) in s.typeFields ==> RegularFrom(s, s.typeFields[(typ, field)].name)
  {
    assert Leads(s, typ, [], typ);
    if s.kinds[typ] == INPUT && (typ, field) in s.typeFields {
      forall fields, end | Leads(s, s.typeFields[(typ, field)].name, fields, end) ensures Regular(s, end) {
        assert ([field] + fields)[1..] == fields;
        assert Leads(s, typ, [field] + fields, end);
      }
    }
  }

  /** A literal without anything nested. */
  function Leaf(kind: Kind, raw: string): Value
  {
    Value(kind, raw, [])
  }

  ghost predicate AgreeOnLeaves(s: Schema, typ: string, ref: TypeRef)
  {
    forall kind, raw :: ValidRow(s, Row(kind, raw, Typed(typ, Encode(ref)))) <==> Check(s, Leaf(kind, raw), typ, ref)
  }

  /** One row against one unnested literal: the verdicts agree on every such literal exactly
      when the expected type is regular. */
  lemma LeavesAgreeIffRegular(s: Schema, typ: string, ref: TypeRef)
    requires !Synthetic(typ)
    ensures AgreeOnLeaves(s, typ, ref) <==> Regular(s, typ)
  {
    DecodeEncode(ref);
    EncodeEndsWithBang(ref);
    if Regular(s, typ) {
      forall kind, raw
        ensures ValidRow(s, Row(kind, raw, Typed(typ, Encode(ref)))) <==> Check(s, Leaf(kind, raw), typ, ref)
      {
        LeafAgrees(s, Leaf(kind, raw), typ, ref);
      }
    } else {
      // an unknown type splits on an object; a built-in name of another kind on a literal
      var kind := if typ !in s.kinds then ObjectKind
                  else if s.kinds[typ] == ENUM || s.kinds[typ] == INPUT then (if typ == "Boolean" then BooleanKind else if typ == "String" then StringKind else IntKind)
                  else if typ == "Boolean" then IntKind else BooleanKind;
      assert ValidRow(s, Row(kind, "", Typed(typ, Encode(ref)))) != Check(s, Leaf(kind, ""), typ, ref);
    }
  }

  lemma LeafAgrees(s: Schema, v: Value, typ: string, ref: TypeRef)
    requires Regular(s, typ) && !Synthetic(typ) && (v.children == [] || !v.kind.Composite())
    ensures ValidRow(s, Row(v.kind, v.raw, Typed(typ, Encode(ref)))) <==> Check(s, v, typ, ref)
  {
    DecodeEncode(ref);
    EncodeEndsWithBang(ref);
  }

  /** Both verdicts on a built-in type take exactly these literals: an integer also as a Float or
      an ID, a block string as a string, null unless forbidden, and an empty list for a list. */
  lemma BuiltInLiterals(s: Schema, typ: string, kind: Kind, raw: string, ref: TypeRef)
    requires Regular(s, typ) && BuiltIn(typ)
    ensures ValidRow(s, Row(kind, raw, Typed(typ, Encode(ref)))) <==> Check(s, Leaf(kind, raw), typ, ref)
    ensures Check(s, Leaf(kind, raw), typ, ref) <==>
            || (kind == NullKind && !ref.nonNull)
            || (kind == ListKind && ref.ListOf?)
            || (kind == IntKind && typ in {"Int", "Float", "ID"})
            || (kind == FloatKind && typ == "Float")
            || (kind in {StringKind, BlockKind} && typ in {"String", "ID"})
            || (kind == BooleanKind && typ == "Boolean")
  {
    LeafAgrees(s, Leaf(kind, raw), typ, ref);
  }

  /** And on the schema's own input types: an enum takes its values, an input object objects, and a
      scalar the kinds recorded for it. */
  lemma OwnTypeLiterals(s: Schema, typ: string, kind: Kind, raw: string, ref: TypeRef)
    requires Regular(s, typ) && !BuiltIn(typ) && !Synthetic(typ) && s.kinds[typ] in {SCALAR, ENUM, INPUT}
    ensures ValidRow(s, Row(kind, raw, Typed(typ, Encode(ref)))) <==> Check(s, Leaf(kind, raw), typ, ref)
    ensures Check(s, Leaf(kind, raw), typ, ref) <==>
            || (kind == NullKind && !ref.nonNull)
            || (kind == ListKind && ref.ListOf?)
            || (kind == EnumKind && s.kinds[typ] == ENUM && (typ, raw) in s.enumValues)
            || (kind == ObjectKind && s.kinds[typ] == INPUT)
            || (s.kinds[typ] == SCALAR && kind in {StringKind, BlockKind} && (typ, StringKind) in s.scalarInputs)
            || (s.kinds[typ] == SCALAR && kind in {IntKind, FloatKind, BooleanKind} && (typ, kind) in s.scalarInputs)
  {
    LeafAgrees(s, Leaf(kind, raw), typ, ref);
  }

  /** Under an unknown name the recursive check takes everything but null and lists out of place; the
      row check takes no object and no enum either. */
  lemma UnknownTypeLiterals(s: Schema, typ: string, kind: Kind, raw: string, ref: TypeRef)
    requires typ !in s.kinds && !Synthetic(typ) && !BuiltIn(typ)
    ensures Check(s, Leaf(kind, raw), typ, ref) <==>
            (kind == NullKind ==> !ref.nonNull) && (kind == ListKind ==> ref.ListOf?)
    ensures ValidRow(s, Row(kind, raw, Typed(typ, Encode(ref)))) <==>
            Check(s, Leaf(kind, raw), typ, ref) && kind !in {ObjectKind, EnumKind}
  {
    DecodeEncode(ref);
    EncodeEndsWithBang(ref);
  }

  /** An unknown type splits the two on an empty object: a row error, but accepted recursively. */
  lemma UnknownTypeSplits(s: Schema, typ: string, ref: TypeRef)
    requires typ !in s.kinds && !Synthetic(typ)
    ensures !ValidRow(s, Row(ObjectKind, "", Typed(typ, Encode(ref)))) && Check(s, Leaf(ObjectKind, ""), typ, ref)
  {}

  /** A built-in name declared as an input object splits them on a plain integer. */
  lemma DeclaredIntSplits(s: Schema, raw: string, ref: TypeRef)
    requires "Int" in s.kinds && s.kinds["Int"] == INPUT
    ensures !ValidRow(s, Row(IntKind, raw, Typed("Int", Encode(ref)))) && Check(s, Leaf(IntKind, raw), "Int", ref)
  {}
}
