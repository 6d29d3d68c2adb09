// The type-modifier encoding of packages/houdini-core/plugin/schema/typeRef.go: a string read
// from the innermost level outwards, decoded into one level per list wrapper.
module TypeRefs {
  datatype TypeRef = Base(nonNull: bool) | ListOf(nonNull: bool, inner: TypeRef)

  function Bang(nonNull: bool): string { if nonNull then "!" else "" }

  /** The stored form: a leading '!' for the base type, then ']' and its own '!' per level. */
  function Encode(r: TypeRef): string
  {
    match r
    case Base(nonNull) => Bang(nonNull)
    case ListOf(nonNull, inner) => Encode(inner) + "]" + Bang(nonNull)
  }

  /** What the decoding loop makes of the rest of a modifier string, well-formed or not. */
  function DecodeFrom(ref: TypeRef, rest: string): TypeRef
    decreases |rest|
  {
    if rest == "" then ref
    else if rest[0] != ']' then DecodeFrom(ref, rest[1..])
    else if |rest| > 1 && rest[1] == '!' then DecodeFrom(ListOf(true, ref), rest[2..])
    else DecodeFrom(ListOf(false, ref), rest[1..])
  }

  function Decode(modifiers: string): TypeRef
  {
    if modifiers != "" && modifiers[0] == '!' then DecodeFrom(Base(true), modifiers[1..])
    else DecodeFrom(Base(false), modifiers)
  }

  method ParseTypeRef(modifiers: string) returns (ref: TypeRef)
    ensures ref == Decode(modifiers)
    ensures forall r :: modifiers == Encode(r) ==> ref == r
  {
    ref := Base(false);
    var i := 0;
    assert modifiers[0..] == modifiers;
    if i < |modifiers| && modifiers[i] == '!' {
      ref := Base(true);
      i := i + 1;
    }
    while i < |modifiers|
      invariant 0 <= i <= |modifiers|
      invariant Decode(modifiers) == DecodeFrom(ref, modifiers[i..])
    {
      if modifiers[i] != ']' {
        i := i + 1;
        continue;
      }
      var wrapper := ListOf(false, ref);
      if i + 1 < |modifiers| && modifiers[i + 1] == '!' {
        wrapper := ListOf(true, ref);
        i := i + 1;
      }
      ref := wrapper;
      i := i + 1;
    }
    forall r | modifiers == Encode(r) ensures ref == r {
      DecodeEncode(r);
    }
  }

  /** One more list level around whatever has been decoded so far. */
  lemma {:induction false} DecodeFromWrapped(ref: TypeRef, rest: string, nonNull: bool)
    ensures DecodeFrom(ref, rest + "]" + Bang(nonNull)) == ListOf(nonNull, DecodeFrom(ref, rest))
    decreases |rest|
  {
    var all := rest + "]" + Bang(nonNull);
    if rest == "" {
      assert all[0] == ']' && all[1..] == Bang(nonNull);
      if nonNull {
        assert all[2..] == "";
      }
    } else if rest[0] != ']' {
      assert all[0] == rest[0] && all[1..] == rest[1..] + "]" + Bang(nonNull);
      DecodeFromWrapped(ref, rest[1..], nonNull);
    } else if |rest| > 1 && rest[1] == '!' {
      assert all[0] == rest[0] && all[1] == rest[1] && all[2..] == rest[2..] + "]" + Bang(nonNull);
      DecodeFromWrapped(ListOf(true, ref), rest[2..], nonNull);
    } else {
      assert all[0] == rest[0] && all[1] != '!' && all[1..] == rest[1..] + "]" + Bang(nonNull);
      DecodeFromWrapped(ListOf(false, ref), rest[1..], nonNull);
    }
  }

  lemma DecodeWrapped(modifiers: string, nonNull: bool)
    ensures Decode(modifiers + "]" + Bang(nonNull)) == ListOf(nonNull, Decode(modifiers))
  {
    var all := modifiers + "]" + Bang(nonNull);
    if modifiers != "" && modifiers[0] == '!' {
      assert all[0] == '!' && all[1..] == modifiers[1..] + "]" + Bang(nonNull);
      DecodeFromWrapped(Base(true), modifiers[1..], nonNull);
    } else {
      assert all[0] != '!';
      DecodeFromWrapped(Base(false), modifiers, nonNull);
    }
  }

  /** Decoding undoes encoding, so the stored form is unambiguous. */
  lemma {:induction false} DecodeEncode(r: TypeRef)
    ensures Decode(Encode(r)) == r
  {
    if r.ListOf? {
      DecodeEncode(r.inner);
      DecodeWrapped(Encode(r.inner), r.nonNull);
    }
  }

  /** The '!' at the end of the stored form is the outermost level's. */
  lemma EncodeEndsWithBang(r: TypeRef)
    ensures Encode(r) != "" && Encode(r)[|Encode(r)| - 1] == '!' <==> r.nonNull
  {
  }

  function TrimSuffix(s: string, c: char): string
  {
    if s != "" && s[|s| - 1] == c then s[..|s| - 1] else s
  }

  /** What list items are checked against at flattening: the outermost list level stripped. */
  function ItemModifiers(modifiers: string): string
  {
    TrimSuffix(TrimSuffix(modifiers, '!'), ']')
  }

  lemma TrimSnoc(s: string, x: char, c: char)
    ensures TrimSuffix(s + [x], c) == if x == c then s else s + [x]
  {
    var t := s + [x];
    assert t[..|t| - 1] == s;
  }

  lemma ItemModifiersStrip(r: TypeRef)
    requires r.ListOf?
    ensures ItemModifiers(Encode(r)) == Encode(r.inner)
  {
    var e := Encode(r.inner);
    TrimSnoc(e, ']', ']');
    if r.nonNull {
      TrimSnoc(e + [']'], '!', '!');
      assert Encode(r) == (e + [']']) + ['!'];
    } else {
      TrimSnoc(e, ']', '!');
      assert Encode(r) == e + [']'];
    }
  }

  // ---------------------------------------------------------------------------
  // Printing a type
  // ---------------------------------------------------------------------------

  /** TypeRef.Render */
  function Render(r: TypeRef, base: string): string
  {
    match r
    case Base(nonNull) => base + Bang(nonNull)
    case ListOf(nonNull, inner) => "[" + Render(inner, base) + "]" + Bang(nonNull)
  }

  function Count(s: string, c: char): nat
  {
    if s == "" then 0 else Count(s[..|s| - 1], c) + if s[|s| - 1] == c then 1 else 0
  }

  function Openers(n: nat): (s: string)
    ensures |s| == n
  {
    if n == 0 then "" else "[" + Openers(n - 1)
  }

  /** The display form of the error message: base name and modifiers, with one "[" put in
      front for every "]" that occurs. */
  method DisplayType(base: string, modifiers: string) returns (shown: string)
    requires ']' !in base
    ensures forall r :: modifiers == Encode(r) ==> shown == Render(r, base)
  {
    var expected := base + modifiers;
    var n := Count(expected, ']');
    shown := expected;
    var i := 0;
    while i < n
      invariant 0 <= i <= n && shown == Openers(i) + expected
    {
      shown := "[" + shown;
      i := i + 1;
    }
    forall r | modifiers == Encode(r) ensures shown == Render(r, base) {
      DisplayIsRender(r, base);
    }
  }

  lemma {:induction false} CountNone(s: string, c: char)
    requires c !in s
    ensures Count(s, c) == 0
  {
    if s != "" { CountNone(s[..|s| - 1], c); }
  }

  lemma CountSnoc(s: string, x: char, c: char)
    ensures Count(s + [x], c) == Count(s, c) + if x == c then 1 else 0
  {
    assert (s + [x])[..|s|] == s;
  }

  lemma WrapAround(o: string, e: string, b: string)
    ensures ("[" + o) + (e + "]" + b) == "[" + (o + e) + "]" + b
  {
  }

  lemma CountWrapped(e: string, nonNull: bool)
    ensures Count(e + "]" + Bang(nonNull), ']') == Count(e, ']') + 1
  {
    CountSnoc(e, ']', ']');
    CountSnoc(e + [']'], '!', ']');
    assert e + "]" + "!" == e + [']'] + ['!'] && e + "]" + "" == e + [']'];
  }

  function Display(e: string): string
  {
    Openers(Count(e, ']')) + e
  }

  lemma DisplayWrapped(e: string, nonNull: bool)
    ensures Display(e + "]" + Bang(nonNull)) == "[" + Display(e) + "]" + Bang(nonNull)
  {
    CountWrapped(e, nonNull);
    WrapAround(Openers(Count(e, ']')), e, Bang(nonNull));
  }

  lemma DisplayBase(base: string, nonNull: bool)
    requires ']' !in base
    ensures Display(base + Bang(nonNull)) == base + Bang(nonNull)
  {
    CountNone(base + Bang(nonNull), ']');
  }

  lemma Regroup(base: string, e: string, b: string)
    ensures base + (e + "]" + b) == (base + e) + "]" + b
  {
  }

  lemma {:induction false} DisplayIsRender(r: TypeRef, base: string)
    requires ']' !in base
    ensures Display(base + Encode(r)) == Render(r, base)
  {
    match r
    case Base(nonNull) => DisplayBase(base, nonNull);
    case ListOf(nonNull, inner) =>
      DisplayIsRender(inner, base);
      DisplayWrapped(base + Encode(inner), nonNull);
      Regroup(base, Encode(inner), Bang(nonNull));
  }
}
