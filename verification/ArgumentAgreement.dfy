// For which types the two checks of an argument literal agree on every literal.
module ArgumentAgreement {
  import opened TypeRefs
  import opened ArgumentValues
  import opened ArgumentRows
  import opened ArgumentVerdicts
  import opened ArgumentTrees

  /** Wherever a literal is stored for this type, its rows are free of errors exactly when the
      recursive check accepts it. */
  ghost predicate AgreeOn(s: Schema, typ: string, ref: TypeRef, t: Tables, v: Value, id: int)
  {
    Stored(s, t, v, Typed(typ, Encode(ref)), id) && WellNamed(v) ==>
      (Clean(s, t, id, id + Size(v)) <==> Check(s, v, typ, ref))
  }

  ghost predicate AgreeOnAll(s: Schema, typ: string, ref: TypeRef)
  {
    forall t, v, id :: AgreeOn(s, typ, ref, t, v, id)
  }

  /** A single row stores an unnested literal. */
  lemma AgreeOnAllLeaves(s: Schema, typ: string, ref: TypeRef)
    requires AgreeOnAll(s, typ, ref) && !Synthetic(typ)
    ensures Regular(s, typ)
  {
    forall kind, raw
      ensures ValidRow(s, Row(kind, raw, Typed(typ, Encode(ref)))) <==> Check(s, Leaf(kind, raw), typ, ref)
    {
      var v := Leaf(kind, raw);
      var t := Tables(map[0 := Row(kind, raw, Typed(typ, Encode(ref)))], map[]);
      assert Sizes([]) == 0 && Size(v) == 1 && WellNamed(v);
      assert Stored(s, t, v, Typed(typ, Encode(ref)), 0);
      assert AgreeOn(s, typ, ref, t, v, 0);
      HeadRow(s, t, v, typ, ref, 0);
    }
    LeavesAgreeIffRegular(s, typ, ref);
  }

  /** The literal stored at id, put into a field of an object at the row before. */
  function Wrapped(field: string, v: Value): Value { Value(ObjectKind, "", [Child(field, v)]) }

  function Above(t: Tables, id: int, expected: Typed, field: string): Tables
  {
    Tables(t.values[id - 1 := Row(ObjectKind, "", expected)], t.links[id := Link(id - 1, field)])
  }

  lemma AboveStores(s: Schema, t: Tables, v: Value, expected: Typed, field: string, id: int)
    requires (expected.name, field) in s.typeFields && Stored(s, t, v, s.typeFields[(expected.name, field)], id)
    ensures Stored(s, Above(t, id, expected, field), Wrapped(field, v), expected, id - 1)
    ensures Size(Wrapped(field, v)) == 1 + Size(v)
  {
    var u, w := Above(t, id, expected, field), Wrapped(field, v);
    StoredKept(s, t, u, v, s.typeFields[(expected.name, field)], id);
    assert w.children[1..] == [] && Sizes(w.children) == Size(v) + Sizes(w.children[1..]);
    assert StoredChild(s, u, w.children[0], ObjectKind, expected, id - 1, id);
    assert StoredChildren(s, u, w.children, ObjectKind, expected, id - 1, id);
  }

  /** The rows of the literal are judged as before. */
  lemma AboveKeepsVerdict(s: Schema, t: Tables, v: Value, inner: Typed, expected: Typed, field: string, id: int)
    requires Stored(s, t, v, inner, id) && inner.name != ""
    ensures var u := Above(t, id, expected, field); Clean(s, u, id, id + Size(v)) <==> Clean(s, t, id, id + Size(v))
  {
    var u := Above(t, id, expected, field);
    forall i | id <= i < id + Size(v) && i in t.values ensures Reported(s, u, i) <==> Reported(s, t, i) {
      if i > id { LinkBelow(s, t, v, inner, id, i); }
    }
  }

  lemma WrappedChecks(s: Schema, field: string, v: Value, typ: string, ref: TypeRef)
    requires typ in s.kinds && s.kinds[typ] == INPUT && (typ, field) in s.typeFields
    ensures var f := s.typeFields[(typ, field)];
            Check(s, Wrapped(field, v), typ, ref) <==> Check(s, v, f.name, Decode(f.modifiers))
    ensures field != "" && WellNamed(v) ==> WellNamed(Wrapped(field, v))
  {
    var children := Wrapped(field, v).children;
    assert children[1..] == [];
    assert CheckFields(s, children, typ) <==> CheckField(s, children[0], typ);
    assert ChildrenWellNamed(children[1..], ObjectKind);
  }

  /** Where the checks agree on all literals of an input type, they do on those of its fields. */
  lemma AgreeBelow(s: Schema, typ: string, ref: TypeRef, field: string)
    requires WellFormedFields(s) && AgreeOnAll(s, typ, ref) && !Synthetic(typ)
    requires typ in s.kinds && s.kinds[typ] == INPUT && (typ, field) in s.typeFields
    ensures var f := s.typeFields[(typ, field)]; !Synthetic(f.name) && AgreeOnAll(s, f.name, Decode(f.modifiers))
  {
    var f, expected := s.typeFields[(typ, field)], Typed(typ, Encode(ref));
    forall t, v, id ensures AgreeOn(s, f.name, Decode(f.modifiers), t, v, id) {
      if Stored(s, t, v, f, id) && WellNamed(v) {
        var u, w := Above(t, id, expected, field), Wrapped(field, v);
        AboveStores(s, t, v, expected, field, id);
        AboveKeepsVerdict(s, t, v, f, expected, field, id);
        assert AgreeOn(s, typ, ref, u, w, id - 1);
        HeadRow(s, u, w, typ, ref, id - 1);
        CleanSplit(s, u, id - 1, id, id + Size(v));
        WrappedChecks(s, field, v, typ, ref);
      }
    }
  }

  lemma {:induction false} AgreeAlong(s: Schema, typ: string, ref: TypeRef, fields: seq<string>, end: string)
    requires WellFormedFields(s) && AgreeOnAll(s, typ, ref) && !Synthetic(typ) && Leads(s, typ, fields, end)
    ensures Regular(s, end)
    decreases |fields|
  {
    if fields == [] {
      AgreeOnAllLeaves(s, typ, ref);
    } else {
      var f := s.typeFields[(typ, fields[0])];
      AgreeBelow(s, typ, ref, fields[0]);
      AgreeAlong(s, f.name, Decode(f.modifiers), fields[1..], end);
    }
  }

  /** The two checks agree on every literal of a type exactly when every type that can be mentioned
      in one is known and, under a built-in name, a scalar. */
  lemma AgreeIffRegular(s: Schema, typ: string, ref: TypeRef)
    requires WellFormedFields(s) && !Synthetic(typ)
    ensures AgreeOnAll(s, typ, ref) <==> RegularFrom(s, typ)
  {
    if RegularFrom(s, typ) {
      forall t, v, id ensures AgreeOn(s, typ, ref, t, v, id) {
        if Stored(s, t, v, Typed(typ, Encode(ref)), id) && WellNamed(v) {
          RowsAgree(s, t, v, typ, ref, id);
        }
      }
    }
    if AgreeOnAll(s, typ, ref) {
      forall fields, end | Leads(s, typ, fields, end) ensures Regular(s, end) {
        AgreeAlong(s, typ, ref, fields, end);
      }
    }
  }
}
