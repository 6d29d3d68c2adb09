// The row-by-row check and the recursive check give the same verdict.
module ArgumentVerdicts {
  import opened TypeRefs
  import opened ArgumentValues
  import opened ArgumentRows

  /** No row from lo up to hi is reported. */
  ghost predicate Clean(s: Schema, t: Tables, lo: int, hi: int)
  {
    forall i :: lo <= i < hi && i in t.values ==> !Reported(s, t, i)
  }

  /** Fields of object literals have names, as the grammar demands. */
  predicate WellNamed(v: Value)
    decreases v, 0
  {
    v.kind.Composite() ==> ChildrenWellNamed(v.children, v.kind)
  }

  predicate ChildrenWellNamed(children: seq<Child>, parent: Kind)
    decreases children, 1
  {
    children == [] ||
    (&& (parent.ObjectKind? ==> children[0].name != "")
     && WellNamed(children[0].value) && ChildrenWellNamed(children[1..], parent))
  }

  lemma CleanSplit(s: Schema, t: Tables, lo: int, mid: int, hi: int)
    requires lo <= mid <= hi
    ensures Clean(s, t, lo, hi) <==> Clean(s, t, lo, mid) && Clean(s, t, mid, hi)
  {
  }

  /** The literal's own row. */
  lemma HeadRow(s: Schema, t: Tables, v: Value, typ: string, ref: TypeRef, id: int)
    requires !Synthetic(typ) && Stored(s, t, v, Typed(typ, Encode(ref)), id)
    ensures Clean(s, t, id, id + 1) <==> ValidRow(s, Row(v.kind, v.raw, Typed(typ, Encode(ref))))
  {
    assert t.values[id] == Row(v.kind, v.raw, Typed(typ, Encode(ref)));
    assert Clean(s, t, id, id + 1) <==> !Reported(s, t, id);
  }

  /** For every variable-free literal and every type from which only regular types are reached, the
      flattened rows are free of errors exactly when the recursive check accepts the literal. */
  lemma {:induction false} RowsAgree(s: Schema, t: Tables, v: Value, typ: string, ref: TypeRef, id: int)
    requires WellFormedFields(s) && RegularFrom(s, typ) && !Synthetic(typ) && WellNamed(v)
    requires Stored(s, t, v, Typed(typ, Encode(ref)), id)
    ensures Clean(s, t, id, id + Size(v)) <==> Check(s, v, typ, ref)
    decreases v, 0
  {
    HeadRow(s, t, v, typ, ref, id);
    RegularBelow(s, typ, "");
    if !v.kind.Composite() {
      LeafAgrees(s, v, typ, ref);
    } else {
      CleanSplit(s, t, id, id + 1, id + Size(v));
      if v.kind.ListKind? {
        DecodeEncode(ref);
        if ref.ListOf? {
          ItemsAgree(s, t, v.children, typ, ref, id, id + 1);
        }
      } else if s.kinds[typ] == INPUT {
        FieldsAgree(s, t, v.children, typ, Encode(ref), id, id + 1);
      }
    }
  }

  lemma {:induction false} ItemsAgree(s: Schema, t: Tables, items: seq<Child>, typ: string, ref: TypeRef, parentId: int, id: int)
    requires WellFormedFields(s) && RegularFrom(s, typ) && !Synthetic(typ) && ref.ListOf?
    requires ChildrenWellNamed(items, ListKind)
    requires StoredChildren(s, t, items, ListKind, Typed(typ, Encode(ref)), parentId, id)
    ensures Clean(s, t, id, id + Sizes(items)) <==> CheckItems(s, items, typ, ref.inner)
    decreases items, 1
  {
    if items != [] {
      ItemModifiersStrip(ref);
      CleanSplit(s, t, id, id + Size(items[0].value), id + Sizes(items));
      assert StoredChild(s, t, items[0], ListKind, Typed(typ, Encode(ref)), parentId, id);
      RowsAgree(s, t, items[0].value, typ, ref.inner, id);
      ItemsAgree(s, t, items[1..], typ, ref, parentId, id + Size(items[0].value));
    }
  }

  lemma {:induction false} FieldsAgree(s: Schema, t: Tables, fields: seq<Child>, typ: string, modifiers: string, parentId: int, id: int)
    requires WellFormedFields(s) && RegularFrom(s, typ) && !Synthetic(typ) && typ in s.kinds && s.kinds[typ] == INPUT
    requires ChildrenWellNamed(fields, ObjectKind)
    requires parentId in t.values && t.values[parentId].expected.name == typ
    requires StoredChildren(s, t, fields, ObjectKind, Typed(typ, modifiers), parentId, id)
    ensures Clean(s, t, id, id + Sizes(fields)) <==> CheckFields(s, fields, typ)
    decreases fields, 1
  {
    if fields != [] {
      CleanSplit(s, t, id, id + Size(fields[0].value), id + Sizes(fields));
      assert StoredChild(s, t, fields[0], ObjectKind, Typed(typ, modifiers), parentId, id);
      FieldAgrees(s, t, fields[0], typ, modifiers, parentId, id);
      FieldsAgree(s, t, fields[1..], typ, modifiers, parentId, id + Size(fields[0].value));
    }
  }

  lemma {:induction false} FieldAgrees(s: Schema, t: Tables, field: Child, typ: string, modifiers: string, parentId: int, id: int)
    requires WellFormedFields(s) && RegularFrom(s, typ) && !Synthetic(typ) && typ in s.kinds && s.kinds[typ] == INPUT
    requires field.name != "" && WellNamed(field.value)
    requires parentId in t.values && t.values[parentId].expected.name == typ
    requires StoredChild(s, t, field, ObjectKind, Typed(typ, modifiers), parentId, id)
    ensures Clean(s, t, id, id + Size(field.value)) <==> CheckField(s, field, typ)
    decreases field, 0
  {
    var key := (typ, field.name);
    if key in s.typeFields {
      RegularBelow(s, typ, field.name);
      RowsAgree(s, t, field.value, s.typeFields[key].name, Decode(s.typeFields[key].modifiers), id);
    } else {
      assert Reported(s, t, id);
    }
  }

  /** The verdict does not depend on the order of the children. */
  lemma {:induction false} CheckItemsAll(s: Schema, items: seq<Child>, typ: string, ref: TypeRef)
    ensures CheckItems(s, items, typ, ref) <==> forall k :: 0 <= k < |items| ==> Check(s, items[k].value, typ, ref)
    decreases |items|
  {
    if items != [] {
      CheckItemsAll(s, items[1..], typ, ref);
      assert forall k :: 0 <= k < |items| - 1 ==> items[1..][k] == items[k + 1];
    }
  }

  lemma {:induction false} CheckFieldsAll(s: Schema, fields: seq<Child>, typ: string)
    ensures CheckFields(s, fields, typ) <==> forall k :: 0 <= k < |fields| ==> CheckField(s, fields[k], typ)
    decreases |fields|
  {
    if fields != [] {
      CheckFieldsAll(s, fields[1..], typ);
      assert forall k :: 0 <= k < |fields| - 1 ==> fields[1..][k] == fields[k + 1];
    }
  }
}
