/** When a schema compiles, and what its guide gives up. */
module JsonSchemaComplete {
  import opened Options
  import opened JsonSchema
  import opened JsonSchemaSoundness
  import opened JsonSchemaOneOf

  // ------------------------------------------------------------------ read off the schema

  /** Where the nine keywords come from: the first member of their name. */
  lemma KeywordsAre(fs: seq<Field>, key: string)
    ensures var s := Read(fs);
      && s.ty == Lookup(fs, "type") && s.choices == Lookup(fs, "enum")
      && s.anyOf == Lookup(fs, "anyOf") && s.oneOf == Lookup(fs, "oneOf")
      && s.properties == Lookup(fs, "properties") && s.required == Lookup(fs, "required")
      && s.items == Lookup(fs, "items") && s.minItems == Lookup(fs, "minItems") && s.maxItems == Lookup(fs, "maxItems")
    ensures Lookup(fs, key).None? <==> forall i | 0 <= i < |fs| :: fs[i].key != key
    ensures Lookup(fs, key).Some? ==> exists i | 0 <= i < |fs| ::
              fs[i] == Field(key, Lookup(fs, key).value) && forall k | 0 <= k < i :: fs[k].key != key
  {
    LookupIs(fs, key);
  }

  lemma {:induction false} LookupIs(fs: seq<Field>, key: string)
    ensures Lookup(fs, key).None? <==> forall i | 0 <= i < |fs| :: fs[i].key != key
    ensures Lookup(fs, key).Some? ==> exists i | 0 <= i < |fs| ::
              fs[i] == Field(key, Lookup(fs, key).value) && forall k | 0 <= k < i :: fs[k].key != key
  {
    if fs != [] {
      LookupIs(fs[1..], key);
      assert forall i | 0 <= i < |fs| - 1 :: fs[1..][i] == fs[i + 1];
      assert forall i | 0 < i < |fs| :: fs[i] == fs[1..][i - 1];
      if fs[0].key == key {
        assert fs[0] == Field(key, Lookup(fs, key).value);
      } else if Lookup(fs, key).Some? {
        var i :| 0 <= i < |fs[1..]| && fs[1..][i] == Field(key, Lookup(fs[1..], key).value)
              && forall k | 0 <= k < i :: fs[1..][k].key != key;
        assert fs[i + 1] == Field(key, Lookup(fs, key).value);
        assert forall k | 0 < k < i + 1 :: fs[k].key != key;
      }
    }
  }

  /** A schema for null: null itself, or an object whose type is the word null. */
  lemma NullSchemaIs(j: Json)
    ensures IsNullSchema(j) <==> j == JNull || (j.JObject? && Lookup(j.fields, "type") == Some(JString("null")))
  {
  }

  /** A bound in whole numbers: itself, or the nearest one toward zero. */
  lemma IntValueIs(r: real)
    ensures IntValue(None) == None && forall i :: IntValue(Some(JInt(i))) == Some(i)
    ensures r >= 0.0 ==> exists k: int :: IntValue(Some(JDouble(r))) == Some(k) && k as real <= r < k as real + 1.0
    ensures r < 0.0 ==> exists k: int :: IntValue(Some(JDouble(r))) == Some(k) && k as real - 1.0 < r <= k as real
    ensures forall j: Json | !j.JInt? && !j.JDouble? :: IntValue(Some(j)) == None
  {
    var k := if r >= 0.0 then r.Floor else -((-r).Floor);
    assert IntValue(Some(JDouble(r))) == Some(k);
  }

  /** The type keyword names `t`; without one, properties mean an object, items an array
      and an enum a string. */
  predicate Named(s: Schema, t: string)
  {
    match s.ty
    case None =>
      if s.properties.Some? then t == "object"
      else if s.items.Some? then t == "array"
      else s.choices.Some? && t == "string"
    case Some(JString(u)) => t == u
    case Some(JArray(ts)) => JString(t) in ts
    case Some(_) => false
  }

  predicate TypesReadable(s: Schema)
  {
    match s.ty
    case None => s.properties.Some? || s.items.Some? || s.choices.Some?
    case Some(JString(_)) => true
    case Some(JArray(ts)) => forall i | 0 <= i < |ts| :: ts[i].JString?
    case Some(_) => false
  }

  predicate Supported(t: string)
  {
    t == "object" || t == "array" || t == "string" || t == "integer" || t == "number" || t == "boolean"
  }

  /** The schemas that compile: no enum but a list of strings, every branch that is not
      null compiles, every type named is known, an object's properties and an array's
      items compile, and the items are there. */
  ghost predicate Compiles(raw: Json)
    decreases Size(raw), 1
  {
    raw.JObject? && CompilesAll(Read(raw.fields))
  }

  ghost predicate CompilesAll(s: Schema)
    decreases Weight(s) + 1, 0
  {
    if ArrayOf(s.choices).Some? then
      var vs := ArrayOf(s.choices).value;
      vs != [] && forall i | 0 <= i < |vs| :: vs[i].JString?
    else if ArrayOf(s.anyOf).Some? then CompilesBranches(ArrayOf(s.anyOf).value)
    else if ArrayOf(s.oneOf).Some? then CompilesBranches(ArrayOf(s.oneOf).value)
    else
      && TypesReadable(s) && (forall t | Named(s, t) && t != "null" :: Supported(t))
      && (Named(s, "object") ==> forall i | 0 <= i < |PropertySchemas(s)| :: Compiles(PropertySchemas(s)[i].value))
      && (Named(s, "array") ==> s.items.Some? && Compiles(s.items.value))
  }

  ghost predicate CompilesBranches(ss: seq<Json>)
    decreases ItemsSize(ss), 2
  {
    forall i | 0 <= i < |ss| && !IsNullSchema(ss[i]) :: Compiles(ss[i])
  }

  // --------------------------------------------------------------------- type names

  lemma {:induction false} StringsAreAll(xs: seq<Json>)
    ensures |Strings(xs)| == |xs| <==> forall i | 0 <= i < |xs| :: xs[i].JString?
  {
    if xs != [] {
      StringsAreAll(xs[1..]);
      assert forall i | 0 < i < |xs| :: xs[i] == xs[1..][i - 1];
    }
  }

  lemma {:induction false} StringMembers(xs: seq<Json>, t: string)
    ensures t in Strings(xs) <==> JString(t) in xs
  {
    if xs != [] {
      StringMembers(xs[1..], t);
      assert xs == [xs[0]] + xs[1..];
    }
  }

  /** The names that the compiler finds are those that are there. */
  lemma NamesFound(s: Schema)
    ensures TypeNames(s).Ok? <==> TypesReadable(s)
    ensures !TypeNames(s).Ok? ==> TypeNames(s) == Invalid
    ensures TypeNames(s).Ok? ==> forall t :: t in TypeNames(s).value <==> Named(s, t)
  {
    if s.ty.Some? && s.ty.value.JArray? {
      StringsAreAll(s.ty.value.items);
      forall t
        ensures t in Strings(s.ty.value.items) <==> Named(s, t)
      {
        StringMembers(s.ty.value.items, t);
      }
    }
  }

  lemma {:induction false} WithoutNullMembers(names: seq<string>, t: string)
    ensures t in WithoutNull(names) <==> t in names && t != "null"
  {
    if names != [] {
      WithoutNullMembers(names[1..], t);
      assert names == [names[0]] + names[1..];
    }
  }

  lemma OthersNamed(s: Schema)
    requires TypesReadable(s)
    ensures TypeNames(s).Ok? && forall t :: t in WithoutNull(TypeNames(s).value) <==> Named(s, t) && t != "null"
  {
    NamesFound(s);
    forall t
      ensures t in WithoutNull(TypeNames(s).value) <==> Named(s, t) && t != "null"
    {
      WithoutNullMembers(TypeNames(s).value, t);
    }
  }

  // ----------------------------------------------------- stripping null changes nothing

  lemma {:induction false} WithoutNullStripped(ts: seq<Json>)
    ensures WithoutNull(Strings(NonNullTypes(ts))) == WithoutNull(Strings(ts))
  {
    if ts != [] {
      WithoutNullStripped(ts[1..]);
      var rest := NonNullTypes(ts[1..]);
      assert ([ts[0]] + rest)[1..] == rest;
      if ts[0].JString? {
        assert ([ts[0].s] + Strings(ts[1..]))[1..] == Strings(ts[1..]);
        assert ([ts[0].s] + Strings(rest))[1..] == Strings(rest);
      }
    }
  }

  /** The type keyword of a stripped schema names the same types but null. */
  lemma StrippedNames(s: Schema)
    requires ArrayOf(s.choices).None? && Alternatives(s).None?
    ensures TypeNames(s.(ty := StripType(s.ty))).Ok? <==> TypeNames(s).Ok?
    ensures TypeNames(s).Ok? ==>
              WithoutNull(TypeNames(s.(ty := StripType(s.ty))).value) == WithoutNull(TypeNames(s).value)
    ensures !TypeNames(s).Ok? ==> TypeNames(s.(ty := StripType(s.ty))) == Invalid && TypeNames(s) == Invalid
  {
    NamesFound(s);
    NamesFound(s.(ty := StripType(s.ty)));
    if s.ty.Some? && s.ty.value.JArray? {
      var ts := s.ty.value.items;
      var rest := NonNullTypes(ts);
      NonNullStrings(ts);
      WithoutNullStripped(ts);
      if |rest| == 1 && rest[0].JString? {
        assert Strings(rest[1..]) == [];
        assert Strings(rest) == [rest[0].s] + Strings(rest[1..]);
      }
    }
  }

  lemma {:induction false} NarrowedAlike(s: Schema, s': Schema, names: seq<string>)
    requires s.ty.Some? && s.ty.value.JArray? && |s.ty.value.items| > 0
    requires s'.ty.Some? && s'.ty.value.JArray? && |s'.ty.value.items| > 0
    requires s' == s.(ty := s'.ty)
    ensures TranslateNarrowed(s, names) == TranslateNarrowed(s', names)
    decreases |names|
  {
    if names != [] {
      assert Narrow(s, names[0]) == Narrow(s', names[0]);
      NarrowedAlike(s, s', names[1..]);
    }
  }

  lemma TypeAlike(s: Schema, ty: Option<Json>, t: string)
    ensures TranslateType(s.(ty := ty), t) == TranslateType(s, t)
  {
    var s' := s.(ty := ty);
    assert PropertySchemas(s') == PropertySchemas(s) && RequiredNames(s') == RequiredNames(s);
  }

  /** Null is dropped by the compiler anyway: it makes no difference to drop it first. */
  lemma StrippingChangesNothing(raw: Json)
    ensures TranslateStripped(raw) == Translate(raw)
  {
    if raw.JObject? {
      StrippedAlike(Read(raw.fields));
    }
  }

  lemma StrippedAlike(s: Schema)
    ensures TranslateSchema(StripNullable(s)) == TranslateSchema(s)
  {
    if ArrayOf(s.choices).None? {
      if Alternatives(s).Some? {
        var ss := Alternatives(s).value;
        NonNullTwice(ss);
        assert Alternatives(StripNullable(s)) == Some(NonNull(ss));
      } else {
        var s' := s.(ty := StripType(s.ty));
        assert StripNullable(s) == s';
        StrippedNames(s);
        if TypeNames(s).Ok? {
          TypesAlike(s, s', WithoutNull(TypeNames(s).value));
        }
      }
    }
  }

  lemma TypesAlike(s: Schema, s': Schema, names: seq<string>)
    requires ArrayOf(s.choices).None? && Alternatives(s).None? && s' == s.(ty := s'.ty)
    requires TypeNames(s).Ok? && TypeNames(s').Ok?
    requires WithoutNull(TypeNames(s).value) == WithoutNull(TypeNames(s').value) == names
    ensures TranslateSchema(s') == TranslateSchema(s)
  {
    if |names| > 1 {
      assert s.ty.value.JArray? && s'.ty.value.JArray?;
      NarrowedAlike(s, s', names);
    } else if |names| == 1 {
      TypeAlike(s, s'.ty, names[0]);
    }
  }

  /** Fixing one name of a type array leaves that type. */
  lemma NarrowedIsType(s: Schema, t: string)
    requires ArrayOf(s.choices).None? && Alternatives(s).None? && t != "null"
    ensures TranslateSchema(Narrow(s, t)) == TranslateType(s, t)
  {
    assert [t][1..] == [];
    assert WithoutNull([t]) == [t] + WithoutNull([]);
    assert TypeNames(Narrow(s, t)) == Ok([t]);
    TypeAlike(s, Some(JString(t)), t);
  }

  // ------------------------------------------------------------------ which compile

  lemma {:induction false} CompilesIff(raw: Json)
    ensures Translate(raw).Ok? <==> Compiles(raw)
    decreases Size(raw), 1
  {
    if raw.JObject? {
      CompilesAllIff(Read(raw.fields));
    }
  }

  lemma {:induction false} CompilesAllIff(s: Schema)
    ensures TranslateSchema(s).Ok? <==> CompilesAll(s)
    decreases Weight(s) + 1, 0
  {
    if ArrayOf(s.choices).Some? {
      StringsAreAll(ArrayOf(s.choices).value);
    } else if Alternatives(s).Some? {
      BranchesIff(s, Alternatives(s).value);
    } else {
      TypesIff(s);
    }
  }

  lemma {:induction false} BranchesIff(s: Schema, ss: seq<Json>)
    requires ArrayOf(s.choices).None? && Alternatives(s) == Some(ss)
    ensures TranslateSchema(s).Ok? <==> CompilesBranches(ss)
    decreases Weight(s), 5
  {
    var nonNull := NonNull(ss);
    AllIff(nonNull);
    NoNullLeft(ss);
    if CompilesBranches(ss) {
      forall k | 0 <= k < |nonNull|
        ensures Compiles(nonNull[k])
      {
        var i := NonNullMember(ss, k);
      }
    }
    if forall k | 0 <= k < |nonNull| :: Compiles(nonNull[k]) {
      forall i | 0 <= i < |ss| && !IsNullSchema(ss[i])
        ensures Compiles(ss[i])
      {
        var k := NonNullIndex(ss, i);
      }
    }
    if |nonNull| == 1 {
      CompilesIff(nonNull[0]);
    }
  }

  lemma {:induction false} AllIff(ss: seq<Json>)
    ensures TranslateAll(ss).Ok? <==> forall i | 0 <= i < |ss| :: Compiles(ss[i])
    decreases ItemsSize(ss), 3
  {
    if ss != [] {
      CompilesIff(ss[0]);
      AllIff(ss[1..]);
      assert forall i | 0 < i < |ss| :: ss[i] == ss[1..][i - 1];
    }
  }

  /** A type that is named compiles. */
  ghost predicate TypeCompiles(s: Schema, t: string)
    decreases Weight(s) + 1, 1
  {
    && Supported(t)
    && (t == "object" ==> forall i | 0 <= i < |PropertySchemas(s)| :: Compiles(PropertySchemas(s)[i].value))
    && (t == "array" ==> s.items.Some? && Compiles(s.items.value))
  }

  lemma {:induction false} TypesIff(s: Schema)
    requires ArrayOf(s.choices).None? && Alternatives(s).None?
    ensures TranslateSchema(s).Ok? <==> CompilesAll(s)
    decreases Weight(s), 9
  {
    NamesFound(s);
    if TypesReadable(s) {
      OthersNamed(s);
      var nonNull := WithoutNull(TypeNames(s).value);
      forall t | t in nonNull
        ensures TranslateType(s, t).Ok? <==> TypeCompiles(s, t)
      {
        TypeIff(s, t);
      }
      EachTypeTranslated(s, nonNull);
      EachTypeCompiles(s, nonNull);
    }
  }

  lemma EachTypeTranslated(s: Schema, names: seq<string>)
    requires ArrayOf(s.choices).None? && Alternatives(s).None?
    requires TypeNames(s).Ok? && names == WithoutNull(TypeNames(s).value) && "null" !in names
    ensures TranslateSchema(s).Ok? <==> forall t | t in names :: TranslateType(s, t).Ok?
  {
    if |names| > 1 {
      NarrowedIff(s, names);
    } else if |names| == 1 {
      assert TranslateSchema(s) == TranslateType(s, names[0]);
      assert names == [names[0]] && names[0] in names;
    }
  }

  lemma EachTypeCompiles(s: Schema, names: seq<string>)
    requires ArrayOf(s.choices).None? && Alternatives(s).None? && TypesReadable(s)
    requires forall t :: t in names <==> Named(s, t) && t != "null"
    ensures CompilesAll(s) <==> forall t | t in names :: TypeCompiles(s, t)
  {
  }

  lemma {:induction false} NarrowedIff(s: Schema, names: seq<string>)
    requires ArrayOf(s.choices).None? && Alternatives(s).None?
    requires s.ty.Some? && s.ty.value.JArray? && |s.ty.value.items| > 0 && "null" !in names
    ensures TranslateNarrowed(s, names).Ok? <==> forall t | t in names :: TranslateType(s, t).Ok?
    decreases |names|
  {
    if names != [] {
      NarrowedIsType(s, names[0]);
      NarrowedIff(s, names[1..]);
      assert names == [names[0]] + names[1..];
    }
  }

  lemma {:induction false} TypeIff(s: Schema, t: string)
    ensures TranslateType(s, t).Ok? <==> TypeCompiles(s, t)
    decreases Weight(s), 8
  {
    if t == "object" {
      PropertiesIff(PropertySchemas(s), RequiredNames(s));
    } else if t == "array" && s.items.Some? {
      StrippingChangesNothing(s.items.value);
      CompilesIff(s.items.value);
    }
  }

  lemma {:induction false} PropertiesIff(ps: seq<Field>, required: seq<string>)
    ensures TranslateProperties(ps, required).Ok? <==> forall i | 0 <= i < |ps| :: Compiles(ps[i].value)
    decreases FieldsSize(ps), 3
  {
    if ps != [] {
      StrippingChangesNothing(ps[0].value);
      CompilesIff(ps[0].value);
      PropertiesIff(ps[1..], required);
      assert forall i | 0 < i < |ps| :: ps[i] == ps[1..][i - 1];
    }
  }

  // ------------------------------------------------------------ what the guide gives up

  /** The valid values that the guide takes. It gives up null where something else is
      possible too, doubles where only integers are named, values of types that are not
      named, members that are not declared, and values that only null branches take. */
  ghost predicate Tidy(raw: Json, v: Json, other: Meaning)
    decreases Size(raw), 1
  {
    raw.JObject? && TidyAll(Read(raw.fields), v, other)
  }

  ghost predicate TidyAll(s: Schema, v: Json, other: Meaning)
    decreases Weight(s) + 1, 0
  {
    if ArrayOf(s.choices).Some? then true
    else if ArrayOf(s.anyOf).Some? then TidyBranch(ArrayOf(s.anyOf).value, v, other)
    else
      match v
      case JNull => forall t | Named(s, t) :: t == "null"
      case JBool(_) => Named(s, "boolean")
      case JString(_) => Named(s, "string")
      case JInt(_) => Named(s, "integer") || Named(s, "number")
      case JDouble(_) => Named(s, "number")
      case JObject(_) => Named(s, "object") && TidyObject(s, v, other)
      case JArray(_) => Named(s, "array") && TidyArray(s, v, other)
  }

  ghost predicate TidyBranch(ss: seq<Json>, v: Json, other: Meaning)
    decreases ItemsSize(ss), 2
  {
    if forall i | 0 <= i < |ss| :: IsNullSchema(ss[i]) then v == JNull
    else exists i | 0 <= i < |ss| && !IsNullSchema(ss[i]) :: Valid(ss[i], v, other) && Tidy(ss[i], v, other)
  }

  ghost predicate TidyObject(s: Schema, v: Json, other: Meaning)
    requires v.JObject?
    decreases Weight(s), 2
  {
    && (forall f | f in v.fields :: Declares(s, f.key))
    && (forall i | 0 <= i < |PropertySchemas(s)| && Has(v.fields, PropertySchemas(s)[i].key) ::
          Tidy(PropertySchemas(s)[i].value, Lookup(v.fields, PropertySchemas(s)[i].key).value, other))
  }

  ghost predicate TidyArray(s: Schema, v: Json, other: Meaning)
    requires v.JArray?
    decreases Weight(s), 2
  {
    s.items.Some? && forall i | 0 <= i < |v.items| :: Tidy(s.items.value, v.items[i], other)
  }

  /** What the guide of one type takes. */
  ghost predicate TypeTakes(s: Schema, t: string, v: Json, other: Meaning)
  {
    || (t == "string" && v.JString?)
    || (t == "integer" && v.JInt?)
    || (t == "number" && (v.JInt? || v.JDouble?))
    || (t == "boolean" && v.JBool?)
    || (t == "object" && v.JObject? && ObjectTakes(s, v, other))
    || (t == "array" && v.JArray? && ArrayTakes(s, v, other))
  }

  ghost predicate ObjectTakes(s: Schema, v: Json, other: Meaning)
    requires v.JObject?
  {
    && (forall f | f in v.fields :: Declares(s, f.key))
    && (forall i | 0 <= i < |PropertySchemas(s)| :: MemberTakes(s, i, v, other))
  }

  ghost predicate MemberTakes(s: Schema, i: nat, v: Json, other: Meaning)
    requires v.JObject? && i < |PropertySchemas(s)|
  {
    var p := PropertySchemas(s)[i];
    if Has(v.fields, p.key) then
      Valid(p.value, Lookup(v.fields, p.key).value, other) && Tidy(p.value, Lookup(v.fields, p.key).value, other)
    else p.key !in RequiredNames(s)
  }

  ghost predicate ArrayTakes(s: Schema, v: Json, other: Meaning)
    requires v.JArray?
  {
    && s.items.Some? && LengthAdmitted(s, |v.items|)
    && forall i | 0 <= i < |v.items| ::
         Valid(s.items.value, v.items[i], other) && Tidy(s.items.value, v.items[i], other)
  }

  /** The converse of soundness, with the exceptions: in the fragment the guide takes
      exactly the valid values that are tidy. */
  lemma {:induction false} Complete(raw: Json, g: Guide, v: Json, other: Meaning)
    requires InFragment(raw, other) && Translate(raw) == Ok(g)
    ensures Accepts(g, v) <==> Valid(raw, v, other) && Tidy(raw, v, other)
    decreases Size(raw), 2
  {
    if Accepts(g, v) {
      Sound(raw, g, v, other);
    }
    CompleteSchema(Read(raw.fields), g, v, other);
  }

  lemma {:induction false} CompleteSchema(s: Schema, g: Guide, v: Json, other: Meaning)
    requires SchemaInFragment(s, other) && TranslateSchema(s) == Ok(g)
    ensures Accepts(g, v) ==> TidyAll(s, v, other)
    ensures ValidAll(s, v, other) && TidyAll(s, v, other) ==> Accepts(g, v)
    decreases Weight(s) + 1, 1
  {
    if ArrayOf(s.choices).Some? {
      CompleteEnum(s, ArrayOf(s.choices).value, v, other);
    } else if ArrayOf(s.anyOf).Some? {
      CompleteAnyOf(s, ArrayOf(s.anyOf).value, g, v, other);
    } else {
      CompleteTypes(s, g, v, other);
    }
  }

  lemma CompleteEnum(s: Schema, vs: seq<Json>, v: Json, other: Meaning)
    requires s.choices == Some(JArray(vs)) && TranslateEnum(vs).Ok?
    ensures ValidAll(s, v, other) ==> Accepts(TranslateEnum(vs).value, v)
  {
    StringsAt(vs);
    if ValidAll(s, v, other) {
      var i :| 0 <= i < |vs| && Same(v, vs[i]);
      assert vs[i] == JString(Strings(vs)[i]);
    }
  }

  lemma {:induction false} CompleteAnyOf(s: Schema, ss: seq<Json>, g: Guide, v: Json, other: Meaning)
    requires SchemaInFragment(s, other) && ArrayOf(s.choices).None? && s.anyOf == Some(JArray(ss))
    requires TranslateSchema(s) == Ok(g)
    ensures Accepts(g, v) <==> TidyBranch(ss, v, other)
    decreases Weight(s), 5
  {
    if NonNull(ss) == [] {
      AllNull(ss);
    } else {
      var i := NotAllNull(ss);
      if Accepts(g, v) {
        TakenByBranch(s, ss, g, v, other);
      }
      if TidyBranch(ss, v, other) {
        BranchTakes(s, ss, g, v, other);
      }
    }
  }

  lemma NotAllNull(ss: seq<Json>) returns (i: nat)
    requires NonNull(ss) != []
    ensures i < |ss| && !IsNullSchema(ss[i])
  {
    NoNullLeft(ss);
    i := NonNullMember(ss, 0);
  }

  lemma {:induction false} TakenByBranch(s: Schema, ss: seq<Json>, g: Guide, v: Json, other: Meaning)
    requires SchemaInFragment(s, other) && ArrayOf(s.choices).None? && s.anyOf == Some(JArray(ss))
    requires TranslateSchema(s) == Ok(g) && NonNull(ss) != [] && Accepts(g, v)
    ensures TidyBranch(ss, v, other)
    decreases Weight(s), 4
  {
    NoNullLeft(ss);
    var k := SomeBranchGuide(s, ss, g, v);
    var i := NonNullMember(ss, k);
    Complete(ss[i], Translate(ss[i]).value, v, other);
  }

  lemma {:induction false} BranchTakes(s: Schema, ss: seq<Json>, g: Guide, v: Json, other: Meaning)
    requires SchemaInFragment(s, other) && ArrayOf(s.choices).None? && s.anyOf == Some(JArray(ss))
    requires TranslateSchema(s) == Ok(g) && NonNull(ss) != [] && TidyBranch(ss, v, other)
    ensures Accepts(g, v)
    decreases Weight(s), 4
  {
    var m := NotAllNull(ss);
    var i :| 0 <= i < |ss| && !IsNullSchema(ss[i]) && Valid(ss[i], v, other) && Tidy(ss[i], v, other);
    var k := NonNullIndex(ss, i);
    BranchGuide(s, ss, g, k);
    Complete(ss[i], Translate(ss[i]).value, v, other);
  }

  lemma {:induction false} AllNull(ss: seq<Json>)
    requires NonNull(ss) == []
    ensures forall i | 0 <= i < |ss| :: IsNullSchema(ss[i])
  {
    if ss != [] {
      AllNull(ss[1..]);
      assert forall i | 0 < i < |ss| :: ss[i] == ss[1..][i - 1];
    }
  }

  lemma {:induction false} CompleteTypes(s: Schema, g: Guide, v: Json, other: Meaning)
    requires SchemaInFragment(s, other) && Plain(s) && TranslateSchema(s) == Ok(g)
    ensures Accepts(g, v) ==> TidyAll(s, v, other)
    ensures ValidAll(s, v, other) && TidyAll(s, v, other) ==> Accepts(g, v)
    decreases Weight(s), 9
  {
    NamesFound(s);
    OthersNamed(s);
    var nonNull := WithoutNull(TypeNames(s).value);
    TypesTake(s, g, v, other);
    if nonNull == [] {
      assert forall t | Named(s, t) :: t == "null";
      NullOnly(s, v, other);
    } else {
      assert nonNull[0] in nonNull;
      SomeTypeIff(s, nonNull, v, other);
    }
  }

  lemma SomeTypeIff(s: Schema, names: seq<string>, v: Json, other: Meaning)
    requires Plain(s) && TypesReadable(s) && TypeNames(s).Ok? && names == WithoutNull(TypeNames(s).value) && names != []
    requires forall t :: t in names <==> Named(s, t) && t != "null"
    ensures (exists t | t in names :: TypeTakes(s, t, v, other)) ==> TidyAll(s, v, other)
    ensures ValidAll(s, v, other) && TidyAll(s, v, other) ==> exists t | t in names :: TypeTakes(s, t, v, other)
  {
    assert names[0] in names;
    if ValidAll(s, v, other) && TidyAll(s, v, other) {
      ValidIsTaken(s, v, other);
    }
    if exists t | t in names :: TypeTakes(s, t, v, other) {
      SomeTypeTidy(s, names, v, other);
    }
  }

  lemma SomeTypeTidy(s: Schema, names: seq<string>, v: Json, other: Meaning)
    requires Plain(s) && (forall t | t in names :: Named(s, t)) && exists t | t in names :: TypeTakes(s, t, v, other)
    ensures TidyAll(s, v, other)
  {
    var t :| t in names && TypeTakes(s, t, v, other);
    TakenIsTidy(s, t, v, other);
  }

  lemma NullOnly(s: Schema, v: Json, other: Meaning)
    requires Plain(s) && forall t | Named(s, t) :: t == "null"
    ensures TidyAll(s, v, other) <==> v == JNull
  {
  }

  lemma TakenIsTidy(s: Schema, t: string, v: Json, other: Meaning)
    requires Plain(s) && Named(s, t) && TypeTakes(s, t, v, other)
    ensures TidyAll(s, v, other)
  {
    if v.JObject? {
      assert ObjectTakes(s, v, other);
      forall i | 0 <= i < |PropertySchemas(s)| && Has(v.fields, PropertySchemas(s)[i].key)
        ensures Tidy(PropertySchemas(s)[i].value, Lookup(v.fields, PropertySchemas(s)[i].key).value, other)
      {
        assert MemberTakes(s, i, v, other);
      }
    }
  }

  /** The guide takes null when nothing else is named, and otherwise what the guide of one
      of the other types takes. */
  lemma {:induction false} TypesTake(s: Schema, g: Guide, v: Json, other: Meaning)
    requires SchemaInFragment(s, other) && Plain(s) && TranslateSchema(s) == Ok(g) && TypeNames(s).Ok?
    ensures var nonNull := WithoutNull(TypeNames(s).value);
      Accepts(g, v) <==>
        if nonNull == [] then v == JNull else exists t | t in nonNull :: TypeTakes(s, t, v, other)
    decreases Weight(s), 8
  {
    var nonNull := WithoutNull(TypeNames(s).value);
    OthersAreNamed(s);
    if |nonNull| > 1 {
      NarrowedTake(s, nonNull, g, v, other);
    } else if |nonNull| == 1 {
      TypeTakesIff(s, nonNull[0], g, v, other);
      assert nonNull == [nonNull[0]];
    }
  }

  lemma OthersAreNamed(s: Schema)
    requires TypeNames(s).Ok?
    ensures forall t | t in WithoutNull(TypeNames(s).value) :: t != "null" && Allows(s, t)
  {
    forall t | t in WithoutNull(TypeNames(s).value)
      ensures t != "null" && Allows(s, t)
    {
      WithoutNullMembers(TypeNames(s).value, t);
    }
  }

  lemma {:induction false} NarrowedTake(s: Schema, names: seq<string>, g: Guide, v: Json, other: Meaning)
    requires SchemaInFragment(s, other) && Plain(s)
    requires s.ty.Some? && s.ty.value.JArray? && |s.ty.value.items| > 0
    requires forall t | t in names :: t != "null" && Allows(s, t)
    requires g.GAnyOf? && TranslateNarrowed(s, names) == Ok(g.options)
    ensures Accepts(g, v) <==> exists t | t in names :: TypeTakes(s, t, v, other)
    decreases Weight(s), 7
  {
    NarrowedSize(s, names, g.options);
    forall i | 0 <= i < |names|
      ensures Accepts(g.options[i], v) <==> TypeTakes(s, names[i], v, other)
    {
      assert names[i] in names;
      NarrowedAt(s, names, g.options, i);
      NarrowedIsType(s, names[i]);
      TypeTakesIff(s, names[i], g.options[i], v, other);
    }
    SomeOption(s, names, g.options, v, other);
  }

  lemma SomeOption(s: Schema, names: seq<string>, options: seq<Guide>, v: Json, other: Meaning)
    requires |options| == |names|
    requires forall i | 0 <= i < |names| :: Accepts(options[i], v) <==> TypeTakes(s, names[i], v, other)
    ensures Accepts(GAnyOf(options), v) <==> exists t | t in names :: TypeTakes(s, t, v, other)
  {
    if t :| t in names && TypeTakes(s, t, v, other) {
      var i :| 0 <= i < |names| && names[i] == t;
      assert Accepts(options[i], v);
    }
    if i :| 0 <= i < |options| && Accepts(options[i], v) {
      assert names[i] in names;
    }
  }

  lemma {:induction false} NarrowedSize(s: Schema, names: seq<string>, gs: seq<Guide>)
    requires s.ty.Some? && s.ty.value.JArray? && |s.ty.value.items| > 0
    requires TranslateNarrowed(s, names) == Ok(gs)
    ensures |gs| == |names|
    decreases |names|
  {
    if names != [] {
      NarrowedSize(s, names[1..], gs[1..]);
    }
  }

  lemma {:induction false} TypeTakesIff(s: Schema, t: string, g: Guide, v: Json, other: Meaning)
    requires SchemaInFragment(s, other) && Plain(s) && Allows(s, t) && TranslateType(s, t) == Ok(g)
    ensures Accepts(g, v) <==> TypeTakes(s, t, v, other)
    decreases Weight(s), 6
  {
    if t == "object" {
      if v.JObject? {
        ObjectTakesIff(s, g, v, other);
      }
    } else if t == "array" {
      if v.JArray? {
        ArrayTakesIff(s, g, v, other);
      }
    } else {
      ScalarTakesIff(s, t, g, v, other);
    }
  }

  lemma ScalarTakesIff(s: Schema, t: string, g: Guide, v: Json, other: Meaning)
    requires t != "object" && t != "array" && TranslateType(s, t) == Ok(g)
    ensures Accepts(g, v) <==> TypeTakes(s, t, v, other)
  {
  }

  lemma {:induction false} ArrayTakesIff(s: Schema, g: Guide, v: Json, other: Meaning)
    requires SchemaInFragment(s, other) && Plain(s) && Allows(s, "array") && TranslateType(s, "array") == Ok(g)
    requires v.JArray?
    ensures Accepts(g, v) <==> ArrayTakes(s, v, other)
    decreases Weight(s), 5
  {
    StrippingChangesNothing(s.items.value);
    forall i | 0 <= i < |v.items|
      ensures Accepts(g.element, v.items[i])
         <==> Valid(s.items.value, v.items[i], other) && Tidy(s.items.value, v.items[i], other)
    {
      Complete(s.items.value, g.element, v.items[i], other);
    }
  }

  lemma {:induction false} ObjectTakesIff(s: Schema, g: Guide, v: Json, other: Meaning)
    requires SchemaInFragment(s, other) && Plain(s) && Allows(s, "object") && TranslateType(s, "object") == Ok(g)
    requires v.JObject?
    ensures Accepts(g, v) <==> ObjectTakes(s, v, other)
    decreases Weight(s), 5
  {
    var ps := PropertySchemas(s);
    SameLength(ps, RequiredNames(s), g.properties);
    forall i | 0 <= i < |ps|
      ensures g.properties[i].name == ps[i].key
      ensures AcceptsMember(g.properties[i], Lookup(v.fields, ps[i].key)) <==> MemberTakes(s, i, v, other)
    {
      PropertyAt(ps, RequiredNames(s), g.properties, i);
      StrippingChangesNothing(ps[i].value);
      if Has(v.fields, ps[i].key) {
        Complete(ps[i].value, g.properties[i].guide, Lookup(v.fields, ps[i].key).value, other);
      }
    }
    NamesDeclared(s, g.properties, v);
    MembersTake(s, g.properties, v, other);
  }

  lemma MembersTake(s: Schema, properties: seq<Property>, v: Json, other: Meaning)
    requires v.JObject? && |properties| == |PropertySchemas(s)|
    requires forall i | 0 <= i < |properties| ::
      && properties[i].name == PropertySchemas(s)[i].key
      && (AcceptsMember(properties[i], Lookup(v.fields, PropertySchemas(s)[i].key)) <==> MemberTakes(s, i, v, other))
    requires NamesKnown(properties, v) <==> forall f | f in v.fields :: Declares(s, f.key)
    ensures Accepts(GObject(properties), v) <==> ObjectTakes(s, v, other)
  {
    assert Accepts(GObject(properties), v) <==>
      NamesKnown(properties, v)
      && forall i | 0 <= i < |properties| :: AcceptsMember(properties[i], Lookup(v.fields, properties[i].name));
  }

  ghost predicate NamesKnown(properties: seq<Property>, v: Json)
    requires v.JObject?
  {
    forall f | f in v.fields :: exists i | 0 <= i < |properties| :: properties[i].name == f.key
  }

  /** The property names of the guide are the declared ones. */
  lemma NamesDeclared(s: Schema, properties: seq<Property>, v: Json)
    requires v.JObject? && |properties| == |PropertySchemas(s)|
    requires forall i | 0 <= i < |properties| :: properties[i].name == PropertySchemas(s)[i].key
    ensures NamesKnown(properties, v) <==> forall f | f in v.fields :: Declares(s, f.key)
  {
    var ps := PropertySchemas(s);
    forall key: string
      ensures (exists i | 0 <= i < |properties| :: properties[i].name == key) <==> Declares(s, key)
    {
      if i :| 0 <= i < |properties| && properties[i].name == key {
        HasMember(ps, i);
      }
      if Declares(s, key) {
        MemberFound(ps, key);
        var i :| 0 <= i < |ps| && ps[i].key == key;
        assert properties[i].name == key;
      }
    }
  }

  lemma {:induction false} MemberFound(fs: seq<Field>, key: string)
    requires Has(fs, key)
    ensures exists i | 0 <= i < |fs| :: fs[i].key == key
  {
    if fs[0].key != key {
      MemberFound(fs[1..], key);
      var i :| 0 <= i < |fs[1..]| && fs[1..][i].key == key;
      assert fs[i + 1].key == key;
    }
  }

  lemma BoundsAdmit(s: Schema, n: nat)
    requires LengthOk(s, n)
    ensures LengthAdmitted(s, n)
  {
  }

  /** A valid, tidy value is taken by the guide of some type. */
  lemma ValidIsTaken(s: Schema, v: Json, other: Meaning)
    requires Plain(s) && TypesReadable(s) && ValidAll(s, v, other) && TidyAll(s, v, other)
    requires exists t :: Named(s, t) && t != "null"
    ensures TypeNames(s).Ok? && exists t | t in WithoutNull(TypeNames(s).value) :: TypeTakes(s, t, v, other)
  {
    OthersNamed(s);
    var t := KindNamed(s, v, other);
    if t == "object" {
      RequiredThere(s, v, other);
    } else if t == "array" {
      BoundsAdmit(s, |v.items|);
    }
    assert TypeTakes(s, t, v, other);
  }

  /** The type that the value is taken for. */
  lemma KindNamed(s: Schema, v: Json, other: Meaning) returns (t: string)
    requires Plain(s) && TidyAll(s, v, other) && exists u :: Named(s, u) && u != "null"
    ensures Named(s, t) && t != "null"
    ensures match v
      case JNull => false
      case JBool(_) => t == "boolean"
      case JString(_) => t == "string"
      case JInt(_) => t == "integer" || t == "number"
      case JDouble(_) => t == "number"
      case JObject(_) => t == "object"
      case JArray(_) => t == "array"
  {
    match v
    case JNull => t := "null";
    case JBool(_) => t := "boolean";
    case JString(_) => t := "string";
    case JInt(_) => t := if Named(s, "integer") then "integer" else "number";
    case JDouble(_) => t := "number";
    case JObject(_) => t := "object";
    case JArray(_) => t := "array";
  }

  lemma RequiredThere(s: Schema, v: Json, other: Meaning)
    requires Plain(s) && v.JObject? && ValidAll(s, v, other) && TidyObject(s, v, other)
    ensures ObjectTakes(s, v, other)
  {
    var ps := PropertySchemas(s);
    forall i | 0 <= i < |ps| && !Has(v.fields, ps[i].key)
      ensures ps[i].key !in RequiredNames(s)
    {
      if ps[i].key in RequiredNames(s) {
        var k := StringIsFrom(ArrayOf(s.required).value, ps[i].key);
      }
    }
  }

  // -------------------------------------------------------------------- two kinds of error

  /** Which error a schema that does not compile gives at its own level. */
  lemma ErrorKinds(raw: Json)
    ensures !raw.JObject? ==> Translate(raw) == Invalid
    ensures raw.JObject? ==>
      var s := Read(raw.fields);
      && (s.choices == Some(JArray([])) ==> Translate(raw) == Invalid)
      && (ArrayOf(s.choices).Some? && (exists x | x in ArrayOf(s.choices).value :: !x.JString?) ==>
            Translate(raw) == Unsupported)
      && (ArrayOf(s.choices).None? && ArrayOf(s.anyOf).None? && ArrayOf(s.oneOf).None? ==>
            && (!TypesReadable(s) ==> Translate(raw) == Invalid)
            && (s.ty == Some(JString("array")) && s.items.None? ==> Translate(raw) == Invalid)
            && (forall t | s.ty == Some(JString(t)) && t != "null" && !Supported(t) :: Translate(raw) == Unsupported))
  {
    if raw.JObject? {
      var s := Read(raw.fields);
      if ArrayOf(s.choices).Some? {
        StringsAreAll(ArrayOf(s.choices).value);
      } else if Alternatives(s).None? {
        NamesFound(s);
        if s.ty.Some? && s.ty.value.JString? {
          OnlyName(s.ty.value.s);
        }
      }
    }
  }

  lemma OnlyName(t: string)
    ensures WithoutNull([t]) == if t == "null" then [] else [t]
  {
    assert [t][1..] == [];
    assert WithoutNull([]) == [];
  }
}
