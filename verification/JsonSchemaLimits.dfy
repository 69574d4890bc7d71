/** When exactly the schema compiler is sound. */
module JsonSchemaLimits {
  import opened Options
  import opened JsonSchema
  import opened JsonSchemaSoundness

  // The exact condition, keyword by keyword, over sub-schemas for which it is sound.

  /** Everything that the compiled guide lets through satisfies the keywords. */
  ghost predicate SoundFor(s: Schema, other: Meaning)
  {
    TranslateSchema(s).Ok? ==> forall v | Accepts(TranslateSchema(s).value, v) :: ValidAll(s, v, other)
  }

  /** The guide lets through a value that the keywords refuse. */
  predicate LetsThrough(s: Schema, v: Json, other: Meaning)
  {
    TranslateSchema(s).Ok? && Accepts(TranslateSchema(s).value, v) && !ValidAll(s, v, other)
  }

  ghost predicate Empty(g: Guide)
  {
    forall v :: !Accepts(g, v)
  }

  const BARE: Schema := Schema(None, None, None, None, None, None, None, None, None)

  function Typed(t: string): (raw: Json)
  {
    JObject([Field("type", JString(t))])
  }

  lemma TypedMeans(t: string, other: Meaning)
    requires t in ["string", "integer", "null"]
    ensures Read(Typed(t).fields) == BARE.(ty := Some(JString(t)))
    ensures InFragment(Typed(t), other)
    ensures Translate(Typed(t)) == Ok(if t == "string" then GString else if t == "integer" then GInt else GNull)
    ensures TranslateStripped(Typed(t)) == Translate(Typed(t))
  {
    var s := BARE.(ty := Some(JString(t)));
    TypedReads(t);
    assert StripNullable(s) == s;
    if t == "null" {
      assert WithoutNull([t]) == WithoutNull([t][1..]) == [];
    } else {
      OneType(s, t);
    }
    assert !Allows(s, "object") && !Allows(s, "array");
  }

  lemma TypedReads(t: string)
    ensures Read(Typed(t).fields) == BARE.(ty := Some(JString(t)))
  {
    var fs := Typed(t).fields;
    assert fs[1..] == [];
    assert forall key :: Lookup(fs, key) == if key == "type" then Some(JString(t)) else None;
    assert "type"[0] == 't' && "enum"[0] == 'e';
  }

  // ------------------------------------------------------------------------ enum

  /** For a list of strings the fragment is exact. */
  lemma EnumSoundIff(s: Schema, vs: seq<Json>, other: Meaning)
    requires s.choices == Some(JArray(vs)) && TranslateEnum(vs).Ok?
    ensures SoundFor(s, other) <==> SchemaInFragment(s, other)
    ensures ArrayOf(s.anyOf).None? && ArrayOf(s.oneOf).None? ==> (SoundFor(s, other) <==> AdmitsStrings(s.ty))
  {
    var g := TranslateEnum(vs).value;
    assert TranslateSchema(s) == Ok(g);
    StringsAt(vs);
    if SchemaInFragment(s, other) {
      forall v | Accepts(g, v)
        ensures ValidAll(s, v, other)
      {
        SoundEnum(s, vs, g, v, other);
      }
    }
    if SoundFor(s, other) {
      forall i | 0 <= i < |vs|
        ensures AdmitsStrings(s.ty) && AnyOfOk(s.anyOf, vs[i], other) && OneOfOk(s.oneOf, vs[i], other)
      {
        var c := Strings(vs)[i];
        assert Accepts(g, JString(c));
        TypeOkString(s.ty, c);
      }
      assert 0 < |vs|;
    }
  }

  /** An enum that is not an array is skipped by the compiler and met by no value. */
  lemma NonArrayEnum(s: Schema, v: Json, other: Meaning)
    requires s.choices.Some? && ArrayOf(s.choices).None?
    requires TranslateSchema(s).Ok? && Accepts(TranslateSchema(s).value, v)
    ensures LetsThrough(s, v, other)
  {
  }

  /** A string enum beside a type that excludes strings. */
  lemma EnumIgnoresType(other: Meaning)
    ensures LetsThrough(BARE.(ty := Some(JString("integer")), choices := Some(JArray([JString("a")]))),
                        JString("a"), other)
  {
    assert Strings([JString("a")]) == ["a"];
    assert !HasType(JString("a"), "integer");
  }

  // ----------------------------------------------------------------------- anyOf

  /** When every branch is null, the guide is null, also when there is no branch. */
  lemma NullBranchesIff(s: Schema, ss: seq<Json>, other: Meaning)
    requires ArrayOf(s.choices).None? && Alternatives(s) == Some(ss) && NonNull(ss) == []
    ensures SoundFor(s, other) <==> ValidAll(s, JNull, other)
    ensures ss == [] ==> LetsThrough(s, JNull, other)
  {
    assert Accepts(GNull, JNull);
    assert forall v | Accepts(GNull, v) :: v == JNull;
  }

  /** Beside anyOf the guide lets a value through exactly as the other keywords do. */
  lemma SiblingsIff(s: Schema, ss: seq<Json>, g: Guide, v: Json, other: Meaning)
    requires ArrayOf(s.choices).None? && s.anyOf == Some(JArray(ss)) && NonNull(ss) != []
    requires forall i | 0 <= i < |NonNull(ss)| :: InFragment(NonNull(ss)[i], other)
    requires TranslateSchema(s) == Ok(g) && Accepts(g, v)
    ensures ValidAll(s, v, other) <==> ValidAll(s.(anyOf := None), v, other)
  {
    SoundAlternatives(s, ss, g, v, other);
  }

  /** Every value of the guide has one of the types. */
  ghost predicate Fits(g: Guide, ty: Option<Json>)
    decreases g
  {
    match g
    case GString => AdmitsStrings(ty)
    case GInt => TypeOk(ty, JInt(0))
    case GDouble => TypeOk(ty, JDouble(0.5))
    case GBool => TypeOk(ty, JBool(true))
    case GNull => TypeOk(ty, JNull)
    case GChoices(choices) => choices == [] || AdmitsStrings(ty)
    case GAnyOf(options) => forall i | 0 <= i < |options| :: Fits(options[i], ty)
    case GObject(_) => TypeOk(ty, JObject([])) || Empty(g)
    case GArray(_, _, _) => TypeOk(ty, JArray([])) || Empty(g)
  }

  /** Values of one kind have the same types; a whole double may have one more. */
  lemma SameKind(ty: Option<Json>, v: Json, w: Json)
    requires (v.JObject? && w.JObject?) || (v.JArray? && w.JArray?) || (v.JInt? && w.JInt?) || (v.JBool? && w.JBool?)
          || (v.JDouble? && !IsWhole(v.r) && (w.JDouble? || w.JInt?))
    requires TypeOk(ty, v)
    ensures TypeOk(ty, w)
  {
    if ty.Some? && ty.value.JArray? {
      var i :| 0 <= i < |ty.value.items| && ty.value.items[i].JString? && HasType(v, ty.value.items[i].s);
      assert HasType(w, ty.value.items[i].s);
    }
  }

  lemma {:induction false} FitsMeans(g: Guide, ty: Option<Json>, v: Json)
    requires Fits(g, ty) && Accepts(g, v)
    ensures TypeOk(ty, v)
    decreases g
  {
    match g
    case GString => TypeOkString(ty, v.s);
    case GInt => SameKind(ty, JInt(0), v);
    case GDouble => SameKind(ty, JDouble(0.5), v);
    case GBool => SameKind(ty, JBool(true), v);
    case GNull =>
    case GChoices(choices) => TypeOkString(ty, v.s);
    case GAnyOf(options) =>
      var i :| 0 <= i < |options| && Accepts(options[i], v);
      FitsMeans(options[i], ty, v);
    case GObject(_) => SameKind(ty, JObject([]), v);
    case GArray(_, _, _) => SameKind(ty, JArray([]), v);
  }

  lemma {:induction false} FitsNeeded(g: Guide, ty: Option<Json>)
    requires forall v | Accepts(g, v) :: TypeOk(ty, v)
    ensures Fits(g, ty)
    decreases g
  {
    match g
    case GString => assert Accepts(g, JString("")); TypeOkString(ty, "");
    case GInt => assert Accepts(g, JInt(0));
    case GDouble => assert Accepts(g, JDouble(0.5));
    case GBool => assert Accepts(g, JBool(true));
    case GNull => assert Accepts(g, JNull);
    case GChoices(choices) =>
      if choices != [] {
        assert Accepts(g, JString(choices[0]));
        TypeOkString(ty, choices[0]);
      }
    case GAnyOf(options) =>
      forall i | 0 <= i < |options|
        ensures Fits(options[i], ty)
      {
        assert forall v | Accepts(options[i], v) :: Accepts(g, v);
        FitsNeeded(options[i], ty);
      }
    case GObject(_) =>
      forall v | Accepts(g, v)
        ensures TypeOk(ty, JObject([]))
      {
        SameKind(ty, v, JObject([]));
      }
    case GArray(_, _, _) =>
      forall v | Accepts(g, v)
        ensures TypeOk(ty, JArray([]))
      {
        SameKind(ty, v, JArray([]));
      }
  }

  lemma TypeAlone(s: Schema, v: Json, other: Meaning)
    requires NoSiblings(s.(ty := None)) && ArrayOf(s.oneOf).None? && AnyOfOk(s.anyOf, v, other)
    ensures ValidAll(s, v, other) <==> TypeOk(s.ty, v)
  {
  }

  /** anyOf beside a type: sound when every value of the guide has that type anyway. */
  lemma TypeBesideAnyOfIff(s: Schema, ss: seq<Json>, g: Guide, other: Meaning)
    requires NoSiblings(s.(ty := None)) && ArrayOf(s.oneOf).None?
    requires s.anyOf == Some(JArray(ss)) && NonNull(ss) != []
    requires forall i | 0 <= i < |NonNull(ss)| :: InFragment(NonNull(ss)[i], other)
    requires TranslateSchema(s) == Ok(g)
    ensures SoundFor(s, other) <==> Fits(g, s.ty)
  {
    forall v | Accepts(g, v)
      ensures ValidAll(s, v, other) <==> TypeOk(s.ty, v)
    {
      SoundAlternatives(s, ss, g, v, other);
      TypeAlone(s, v, other);
    }
    if Fits(g, s.ty) {
      forall v | Accepts(g, v)
        ensures TypeOk(s.ty, v)
      {
        FitsMeans(g, s.ty, v);
      }
    }
    if SoundFor(s, other) {
      FitsNeeded(g, s.ty);
    }
  }

  lemma OtherTypeRefused(s: Schema, t: string, v: Json, other: Meaning)
    requires s.ty == Some(JString(t)) && !HasType(v, t)
    ensures !ValidAll(s, v, other)
  {
  }

  lemma OneBranch(s: Schema, raw: Json)
    requires ArrayOf(s.choices).None? && Alternatives(s) == Some([raw]) && !IsNullSchema(raw)
    ensures TranslateSchema(s) == Translate(raw)
  {
    assert [raw][1..] == [];
    assert NonNull([raw]) == [raw] + [];
  }

  /** anyOf beside a type: the type is dropped. */
  lemma TypeDropped(s: Schema, raw: Json, t: string, g: Guide, v: Json, other: Meaning)
    requires ArrayOf(s.choices).None? && s.anyOf == Some(JArray([raw])) && s.ty == Some(JString(t))
    requires !IsNullSchema(raw) && Translate(raw) == Ok(g) && Accepts(g, v) && !HasType(v, t)
    ensures LetsThrough(s, v, other)
  {
    OneBranch(s, raw);
    OtherTypeRefused(s, t, v, other);
  }

  lemma AnyOfIgnoresSiblings(other: Meaning)
    ensures LetsThrough(BARE.(ty := Some(JString("integer")), anyOf := Some(JArray([Typed("string")]))),
                        JString("a"), other)
  {
    var s := BARE.(ty := Some(JString("integer")), anyOf := Some(JArray([Typed("string")])));
    TypedMeans("string", other);
    TypeDropped(s, Typed("string"), "integer", GString, JString("a"), other);
  }

  // ------------------------------------------------------------------ type arrays

  /** An empty type array is compiled to null. */
  lemma EmptyTypeArrayBecomesNull(s: Schema, other: Meaning)
    requires s.ty == Some(JArray([]))
    requires ArrayOf(s.choices).None? && Alternatives(s).None?
    ensures LetsThrough(s, JNull, other)
  {
    assert TypeNames(s) == Ok([]);
  }

  // -------------------------------------------------------------- required names

  /** An accepted object has the required names exactly when they are declared. */
  lemma RequiredIff(s: Schema, g: Guide, v: Json)
    requires g.GObject? && TranslateProperties(PropertySchemas(s), RequiredNames(s)) == Ok(g.properties)
    requires Accepts(g, v)
    ensures RequiredOk(s.required, v) <==> RequiredListed(s)
  {
    if RequiredListed(s) {
      RequiredPresent(s, g, v);
    } else {
      var rs, ps := s.required.value.items, PropertySchemas(s);
      var i :| 0 <= i < |rs| && rs[i].JString? && forall k | 0 <= k < |ps| :: ps[k].key != rs[i].s;
      if Has(v.fields, rs[i].s) {
        FoundMember(v.fields, rs[i].s);
        var k :| 0 <= k < |g.properties| && g.properties[k].name == rs[i].s;
        SameLength(ps, RequiredNames(s), g.properties);
        PropertyAt(ps, RequiredNames(s), g.properties, k);
      }
    }
  }

  lemma {:induction false} FoundMember(fs: seq<Field>, key: string)
    requires Has(fs, key)
    ensures exists f :: f in fs && f.key == key
  {
    if fs[0].key != key {
      FoundMember(fs[1..], key);
      var f :| f in fs[1..] && f.key == key;
      assert f in fs;
    } else {
      assert fs[0] in fs;
    }
  }

  lemma ObjectSoundIff(s: Schema, v: Json, other: Meaning)
    requires Plain(s) && TypeNames(s) == Ok(["object"])
    requires forall i | 0 <= i < |PropertySchemas(s)| :: InFragment(PropertySchemas(s)[i].value, other)
    requires TranslateSchema(s).Ok? && Accepts(TranslateSchema(s).value, v)
    ensures SoundFor(s, other) <==> RequiredListed(s)
  {
    var g := TranslateSchema(s).value;
    OneType(s, "object");
    RequiredIff(s, g, v);
    if RequiredListed(s) {
      forall w | Accepts(g, w)
        ensures ValidAll(s, w, other)
      {
        SoundSchema(s, g, w, other);
      }
    }
  }

  lemma OneType(s: Schema, t: string)
    requires Plain(s) && TypeNames(s) == Ok([t]) && t != "null"
    ensures TranslateSchema(s) == TranslateType(s, t)
    ensures s.ty != Some(JArray([])) && forall u | Allows(s, u) :: u == t
  {
    assert [t][1..] == [];
    assert WithoutNull([t]) == [t] + WithoutNull([]);
  }

  /** A required name without a property is not asked for. */
  lemma UndeclaredRequiredName(other: Meaning)
    ensures LetsThrough(BARE.(ty := Some(JString("object")), required := Some(JArray([JString("x")]))),
                        JObject([]), other)
  {
    assert WithoutNull(["object"]) == ["object"];
    assert [JString("x")][0].JString? && !Has([], [JString("x")][0].s);
  }

  // ---------------------------------------------------------------- array bounds

  /** Truncation keeps the bounds, for arrays of every length, in exactly these cases. */
  lemma BoundsExact(s: Schema)
    ensures (forall n: nat | LengthAdmitted(s, n) :: LengthOk(s, n)) <==> BoundsOk(s)
  {
    if BoundsOk(s) {
      forall n: nat | LengthAdmitted(s, n)
        ensures LengthOk(s, n)
      {
        BoundsKept(s, n);
      }
    } else {
      var n := ShortestAdmitted(s);
      ShortestFails(s, n);
    }
  }

  function ShortestAdmitted(s: Schema): (n: nat)
  {
    if IntValue(s.minItems).Some? && IntValue(s.minItems).value > 0 then IntValue(s.minItems).value else 0
  }

  lemma ShortestFails(s: Schema, n: nat)
    requires !BoundsOk(s) && n == ShortestAdmitted(s)
    ensures LengthAdmitted(s, n) && !LengthOk(s, n)
  {
  }

  /** Given one value for the items, an array schema is sound exactly when truncation
      keeps its bounds. */
  lemma ArraySoundIff(s: Schema, x: Json, other: Meaning)
    requires Plain(s) && TypeNames(s) == Ok(["array"]) && s.items.Some? && InFragment(s.items.value, other)
    requires TranslateStripped(s.items.value).Ok? && Accepts(TranslateStripped(s.items.value).value, x)
    ensures SoundFor(s, other) <==> BoundsOk(s)
  {
    OneType(s, "array");
    var g := TranslateSchema(s).value;
    if BoundsOk(s) {
      forall v | Accepts(g, v)
        ensures ValidAll(s, v, other)
      {
        SoundSchema(s, g, v, other);
      }
    } else {
      var n := ShortestAdmitted(s);
      ShortestFails(s, n);
      var v := JArray(seq(n, _ => x));
      assert Accepts(g, v);
      assert !ValidAll(s, v, other);
    }
  }

  /** One null passes a minimum of 1.5, and none passes a maximum of -0.5. */
  lemma FractionalBoundTruncated(other: Meaning)
    ensures LetsThrough(BARE.(ty := Some(JString("array")), items := Some(Typed("null")),
                              minItems := Some(JDouble(1.5))),
                        JArray([JNull]), other)
    ensures LetsThrough(BARE.(ty := Some(JString("array")), items := Some(Typed("null")),
                              maxItems := Some(JDouble(-0.5))),
                        JArray([]), other)
  {
    var s := BARE.(ty := Some(JString("array")), items := Some(Typed("null")));
    TypedMeans("null", other);
    OneAndAHalf(s);
    FractionFails(s.(minItems := Some(JDouble(1.5))), [JNull], other);
    FractionFails(s.(maxItems := Some(JDouble(-0.5))), [], other);
  }

  lemma OneAndAHalf(s: Schema)
    requires s.minItems.None? && s.maxItems.None?
    ensures var t := s.(minItems := Some(JDouble(1.5))); LengthAdmitted(t, 1) && !LengthOk(t, 1)
    ensures var t := s.(maxItems := Some(JDouble(-0.5))); LengthAdmitted(t, 0) && !LengthOk(t, 0)
  {
    assert (1.5).Floor == 1 && (0.5).Floor == 0;
  }

  /** Nulls in a number that the compiled bounds admit and the real ones do not. */
  lemma FractionFails(s: Schema, vs: seq<Json>, other: Meaning)
    requires Plain(s) && s.ty == Some(JString("array")) && s.items.Some?
    requires TranslateStripped(s.items.value) == Ok(GNull) && forall v | v in vs :: v == JNull
    requires LengthAdmitted(s, |vs|) && !LengthOk(s, |vs|)
    ensures LetsThrough(s, JArray(vs), other)
  {
    OneType(s, "array");
    assert TranslateType(s, "array") == Ok(GArray(GNull, IntValue(s.minItems), IntValue(s.maxItems)));
    forall i | 0 <= i < |vs|
      ensures Accepts(GNull, vs[i])
    {
      assert vs[i] in vs;
    }
  }
}
