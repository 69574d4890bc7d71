/** Everything the compiled guide accepts, the source schema accepts. */
module JsonSchemaSoundness {
  import opened Options
  import opened JsonSchema

  // ---------------------------------------------------------------- the fragment

  /** The type keyword, if any, lets strings through. */
  predicate AdmitsStrings(ty: Option<Json>)
  {
    match ty
    case None => true
    case Some(JString(t)) => t == "string"
    case Some(JArray(ts)) => JString("string") in ts
    case Some(_) => false
  }

  predicate NoSiblings(s: Schema)
  {
    && s.ty.None? && s.choices.None? && s.properties.None? && s.required.None? && s.items.None?
    && s.minItems.None? && s.maxItems.None?
  }

  /** Required names are declared properties. */
  predicate RequiredListed(s: Schema)
  {
    match s.required
    case Some(JArray(rs)) =>
      forall i | 0 <= i < |rs| && rs[i].JString? ::
        exists k | 0 <= k < |PropertySchemas(s)| :: PropertySchemas(s)[k].key == rs[i].s
    case _ => true
  }

  /** No array is as long as the compiled bounds ask. */
  predicate NoLength(min: Option<int>, max: Option<int>)
  {
    max.Some? && (max.value < 0 || (min.Some? && min.value > max.value))
  }

  /** Truncation toward zero loses nothing: a minimum is whole or negative, a maximum
      does not lie strictly between -1 and 0. */
  predicate BoundsOk(s: Schema)
  {
    || NoLength(IntValue(s.minItems), IntValue(s.maxItems))
    || ((s.minItems.Some? && s.minItems.value.JDouble? ==> IsWhole(s.minItems.value.r) || s.minItems.value.r < 0.0)
        && (s.maxItems.Some? && s.maxItems.value.JDouble? ==> !(-1.0 < s.maxItems.value.r < 0.0)))
  }

  /** The compiler takes `t` to be one of the types of the schema. */
  predicate Allows(s: Schema, t: string)
  {
    TypeNames(s).Ok? && t in TypeNames(s).value
  }

  /** No unread keyword, except additionalProperties where no alternatives are compiled. */
  predicate KeysOk(fs: seq<Field>)
  {
    forall i | 0 <= i < |fs| && Unread(fs[i].key) ::
      fs[i].key == "additionalProperties" && NoAlternatives(Read(fs))
  }

  predicate NoAlternatives(s: Schema)
  {
    ArrayOf(s.choices).Some? || Alternatives(s).None?
  }

  /** The schemas for which the compiler is sound. What stands in branches that are not
      compiled is judged by its whole meaning, whatever that is. */
  predicate InFragment(raw: Json, other: Meaning)
    decreases Size(raw), 1
  {
    raw.JObject? && KeysOk(raw.fields) && SchemaInFragment(Read(raw.fields), other)
  }

  /** String enums that the other keywords agree with, anyOf that stands alone, a type
      array that is not empty, required names that are declared, bounds that truncation
      keeps, no oneOf. */
  predicate SchemaInFragment(s: Schema, other: Meaning)
    decreases Weight(s) + 1, 0
  {
    if ArrayOf(s.choices).Some? then
      var vs := ArrayOf(s.choices).value;
      && AdmitsStrings(s.ty)
      && forall i | 0 <= i < |vs| :: AnyOfOk(s.anyOf, vs[i], other) && OneOfOk(s.oneOf, vs[i], other)
    else if ArrayOf(s.anyOf).Some? then
      var nonNull := NonNull(ArrayOf(s.anyOf).value);
      NoSiblings(s) && ArrayOf(s.oneOf).None?
      && if nonNull == [] then AnyOfOk(s.anyOf, JNull, other)
         else forall i | 0 <= i < |nonNull| :: InFragment(nonNull[i], other)
    else
      && Plain(s) && s.ty != Some(JArray([]))
      && (Allows(s, "object") ==>
            && RequiredListed(s)
            && forall i | 0 <= i < |PropertySchemas(s)| :: InFragment(PropertySchemas(s)[i].value, other))
      && (Allows(s, "array") ==> BoundsOk(s) && (s.items.Some? ==> InFragment(s.items.value, other)))
  }

  /** A schema without enum and without an array of alternatives. */
  predicate Plain(s: Schema)
  {
    s.choices.None? && ArrayOf(s.anyOf).None? && ArrayOf(s.oneOf).None?
  }

  // ----------------------------------------------------------------- list lemmas

  lemma {:induction false} StringsAt(xs: seq<Json>)
    requires |Strings(xs)| == |xs|
    ensures forall i | 0 <= i < |xs| :: xs[i] == JString(Strings(xs)[i])
  {
    if xs != [] {
      assert xs[0].JString?;
      StringsAt(xs[1..]);
      assert forall i | 0 < i < |xs| :: xs[i] == xs[1..][i - 1];
    }
  }

  lemma {:induction false} NonNullMember(ss: seq<Json>, i: nat) returns (k: nat)
    requires i < |NonNull(ss)|
    ensures k < |ss| && ss[k] == NonNull(ss)[i]
  {
    if IsNullSchema(ss[0]) {
      k := NonNullMember(ss[1..], i);
      k := k + 1;
    } else if i == 0 {
      k := 0;
    } else {
      k := NonNullMember(ss[1..], i - 1);
      k := k + 1;
    }
  }

  lemma {:induction false} NonNullTwice(ss: seq<Json>)
    ensures NonNull(NonNull(ss)) == NonNull(ss)
  {
    if ss != [] {
      NonNullTwice(ss[1..]);
      if !IsNullSchema(ss[0]) {
        assert NonNull(ss)[1..] == NonNull(ss[1..]);
      }
    }
  }

  lemma {:induction false} NonNullTypesMember(ts: seq<Json>, i: nat) returns (k: nat)
    requires i < |NonNullTypes(ts)|
    ensures k < |ts| && ts[k] == NonNullTypes(ts)[i]
  {
    if ts[0] == NULL_TYPE {
      k := NonNullTypesMember(ts[1..], i);
      k := k + 1;
    } else if i == 0 {
      k := 0;
    } else {
      k := NonNullTypesMember(ts[1..], i - 1);
      k := k + 1;
    }
  }

  lemma {:induction false} WithoutNullMember(names: seq<string>, i: nat) returns (k: nat)
    requires i < |WithoutNull(names)|
    ensures k < |names| && names[k] == WithoutNull(names)[i]
  {
    if names[0] == "null" {
      k := WithoutNullMember(names[1..], i);
      k := k + 1;
    } else if i == 0 {
      k := 0;
    } else {
      k := WithoutNullMember(names[1..], i - 1);
      k := k + 1;
    }
  }

  lemma {:induction false} OptionAt(ss: seq<Json>, gs: seq<Guide>, i: nat)
    requires TranslateAll(ss) == Ok(gs) && i < |gs|
    ensures i < |ss| && Translate(ss[i]) == Ok(gs[i])
  {
    if i > 0 {
      OptionAt(ss[1..], gs[1..], i - 1);
    }
  }

  lemma {:induction false} NarrowedAt(s: Schema, names: seq<string>, gs: seq<Guide>, i: nat)
    requires s.ty.Some? && s.ty.value.JArray? && |s.ty.value.items| > 0
    requires TranslateNarrowed(s, names) == Ok(gs) && i < |gs|
    ensures i < |names| && TranslateSchema(Narrow(s, names[i])) == Ok(gs[i])
  {
    if i > 0 {
      NarrowedAt(s, names[1..], gs[1..], i - 1);
    }
  }

  lemma {:induction false} PropertyAt(ps: seq<Field>, required: seq<string>, out: seq<Property>, i: nat)
    requires TranslateProperties(ps, required) == Ok(out) && i < |ps|
    ensures |out| == |ps|
    ensures TranslateStripped(ps[i].value) == Ok(out[i].guide)
    ensures out[i].name == ps[i].key && out[i].optional == (ps[i].key !in required)
    decreases |ps|
  {
    if |ps| > 1 {
      PropertyAt(ps[1..], required, out[1..], if i > 0 then i - 1 else 0);
    } else {
      assert TranslateProperties(ps[1..], required) == Ok([]);
    }
  }

  lemma {:induction false} StringIsListed(xs: seq<Json>, i: nat)
    requires i < |xs| && xs[i].JString?
    ensures xs[i].s in Strings(xs)
  {
    if i > 0 {
      StringIsListed(xs[1..], i - 1);
    }
  }

  lemma {:induction false} StringIsFrom(xs: seq<Json>, t: string) returns (k: nat)
    requires t in Strings(xs)
    ensures k < |xs| && xs[k] == JString(t)
  {
    if xs[0] == JString(t) {
      k := 0;
    } else {
      k := StringIsFrom(xs[1..], t);
      k := k + 1;
    }
  }

  /** What is left of a type array names types of the array. */
  lemma {:induction false} NonNullStrings(ts: seq<Json>)
    ensures |Strings(ts)| - |ts| == |Strings(NonNullTypes(ts))| - |NonNullTypes(ts)|
    ensures forall t | t in Strings(NonNullTypes(ts)) :: t in Strings(ts)
  {
    if ts != [] {
      NonNullStrings(ts[1..]);
      var rest := NonNullTypes(ts[1..]);
      assert ([ts[0]] + rest)[1..] == rest;
    }
  }

  // ------------------------------------------------------------------- soundness

  /** The names in a type keyword are types it lets through. */
  lemma TypeFound(s: Schema, i: nat, v: Json)
    requires TypeNames(s).Ok? && i < |TypeNames(s).value| && HasType(v, TypeNames(s).value[i])
    ensures TypeOk(s.ty, v)
  {
    if s.ty.Some? && s.ty.value.JArray? {
      StringsAt(s.ty.value.items);
      assert s.ty.value.items[i].JString?;
    }
  }

  lemma NullValid(s: Schema, other: Meaning)
    requires Plain(s) && TypeOk(s.ty, JNull)
    ensures ValidAll(s, JNull, other)
  {
  }

  /** Two plain schemas that differ in their type alone differ in TypeOk alone. */
  lemma TypeIsAllThatChanged(s: Schema, ty: Option<Json>, v: Json, other: Meaning)
    requires ValidAll(s.(ty := ty), v, other) && TypeOk(s.ty, v)
    ensures ValidAll(s, v, other)
  {
  }

  lemma TypeChangeKeepsFragment(s: Schema, ty: Option<Json>, other: Meaning)
    requires Plain(s) && SchemaInFragment(s, other) && ty != Some(JArray([]))
    requires forall t | Allows(s.(ty := ty), t) :: Allows(s, t)
    ensures SchemaInFragment(s.(ty := ty), other)
  {
    var s' := s.(ty := ty);
    assert PropertySchemas(s') == PropertySchemas(s);
    assert RequiredListed(s) ==> RequiredListed(s');
  }

  /** Strings are all one to a type keyword. */
  lemma TypeOkString(ty: Option<Json>, c: string)
    ensures TypeOk(ty, JString(c)) <==> AdmitsStrings(ty)
  {
    if ty.Some? && ty.value.JArray? {
      var ts := ty.value.items;
      if AdmitsStrings(ty) {
        var k :| 0 <= k < |ts| && ts[k] == JString("string");
        assert HasType(JString(c), ts[k].s);
      }
      assert forall k | 0 <= k < |ts| && ts[k].JString? && HasType(JString(c), ts[k].s) :: ts[k] == JString("string");
    }
  }

  lemma SoundEnum(s: Schema, vs: seq<Json>, g: Guide, v: Json, other: Meaning)
    requires s.choices == Some(JArray(vs)) && SchemaInFragment(s, other)
    requires TranslateEnum(vs) == Ok(g) && Accepts(g, v)
    ensures ValidAll(s, v, other)
  {
    StringsAt(vs);
    var i :| 0 <= i < |Strings(vs)| && Strings(vs)[i] == v.s;
    assert vs[i] == v;
    TypeOkString(s.ty, v.s);
  }

  lemma SameLength(ps: seq<Field>, required: seq<string>, out: seq<Property>)
    requires TranslateProperties(ps, required) == Ok(out)
    ensures |out| == |ps|
  {
    if ps != [] {
      PropertyAt(ps, required, out, 0);
    }
  }

  lemma {:induction false} HasMember(fs: seq<Field>, i: nat)
    requires i < |fs|
    ensures Has(fs, fs[i].key)
  {
    if i > 0 {
      HasMember(fs[1..], i - 1);
    }
  }

  /** A guide never yields an object with a property that is not declared. */
  lemma {:induction false} DeclaredOnly(s: Schema, g: Guide, v: Json)
    requires NoAlternatives(s) && TranslateSchema(s) == Ok(g) && Accepts(g, v) && v.JObject?
    ensures forall f | f in v.fields :: Declares(s, f.key)
    decreases Weight(s), 1
  {
    var nonNull := WithoutNull(TypeNames(s).value);
    if |nonNull| > 1 {
      var i :| 0 <= i < |g.options| && Accepts(g.options[i], v);
      NarrowedAt(s, nonNull, g.options, i);
      DeclaredOnly(Narrow(s, nonNull[i]), g.options[i], v);
    } else {
      ObjectDeclares(s, g, v);
    }
  }

  lemma ObjectDeclares(s: Schema, g: Guide, v: Json)
    requires g.GObject? && TranslateProperties(PropertySchemas(s), RequiredNames(s)) == Ok(g.properties)
    requires Accepts(g, v)
    ensures forall f | f in v.fields :: Declares(s, f.key)
  {
    var ps := PropertySchemas(s);
    SameLength(ps, RequiredNames(s), g.properties);
    forall f | f in v.fields
      ensures Declares(s, f.key)
    {
      var k :| 0 <= k < |g.properties| && g.properties[k].name == f.key;
      PropertyAt(ps, RequiredNames(s), g.properties, k);
      HasMember(ps, k);
    }
  }

  /** additionalProperties asks nothing of a value whose members are all declared, and
      nothing else is left unread. */
  lemma KeywordsMet(fs: seq<Field>, v: Json, other: Meaning)
    requires KeysOk(fs)
    requires NoAlternatives(Read(fs)) && v.JObject? ==> forall f | f in v.fields :: Declares(Read(fs), f.key)
    ensures forall i | 0 <= i < |fs| :: UnreadOk(fs, fs[i], v, other)
  {
    NoPatterns(fs);
    forall i | 0 <= i < |fs|
      ensures UnreadOk(fs, fs[i], v, other)
    {
      if Unread(fs[i].key) {
        AdditionalMet(fs, fs[i], v, other);
      }
    }
  }

  lemma AdditionalMet(fs: seq<Field>, f: Field, v: Json, other: Meaning)
    requires f.key == "additionalProperties" && !Has(fs, "patternProperties")
    requires v.JObject? ==> forall m | m in v.fields :: Declares(Read(fs), m.key)
    ensures UnreadOk(fs, f, v, other)
  {
    assert v.JObject? ==> forall i | 0 <= i < |v.fields| :: v.fields[i] in v.fields;
  }

  lemma {:induction false} NoPatterns(fs: seq<Field>)
    requires forall i | 0 <= i < |fs| && Unread(fs[i].key) :: fs[i].key == "additionalProperties"
    ensures !Has(fs, "patternProperties")
  {
    if fs != [] {
      assert forall i | 0 <= i < |fs| - 1 :: fs[1..][i] == fs[i + 1];
      NoPatterns(fs[1..]);
      assert "patternProperties"[0] == 'p' && "additionalProperties"[0] == 'a';
      assert fs[0].key == "patternProperties" ==> Unread(fs[0].key);
    }
  }

  lemma {:induction false} Sound(raw: Json, g: Guide, v: Json, other: Meaning)
    requires InFragment(raw, other) && Translate(raw) == Ok(g) && Accepts(g, v)
    ensures Valid(raw, v, other)
    decreases Size(raw), 1
  {
    var s := Read(raw.fields);
    SoundSchema(s, g, v, other);
    if NoAlternatives(s) && v.JObject? {
      DeclaredOnly(s, g, v);
    }
    KeywordsMet(raw.fields, v, other);
  }

  lemma {:induction false} SoundSchema(s: Schema, g: Guide, v: Json, other: Meaning)
    requires SchemaInFragment(s, other) && TranslateSchema(s) == Ok(g) && Accepts(g, v)
    ensures ValidAll(s, v, other)
    decreases Weight(s) + 1, 0
  {
    if ArrayOf(s.choices).Some? {
      SoundEnum(s, ArrayOf(s.choices).value, g, v, other);
    } else if ArrayOf(s.anyOf).Some? {
      SoundAnyOf(s, ArrayOf(s.anyOf).value, g, v, other);
    } else {
      SoundTypes(s, g, v, other);
    }
  }

  lemma {:induction false} SoundAnyOf(s: Schema, ss: seq<Json>, g: Guide, v: Json, other: Meaning)
    requires SchemaInFragment(s, other) && ArrayOf(s.choices).None? && s.anyOf == Some(JArray(ss))
    requires TranslateSchema(s) == Ok(g) && Accepts(g, v)
    ensures ValidAll(s, v, other)
    decreases Weight(s), 1
  {
    if NonNull(ss) != [] {
      SoundAlternatives(s, ss, g, v, other);
    }
    Alone(s, v, other);
  }

  lemma Alone(s: Schema, v: Json, other: Meaning)
    requires NoSiblings(s) && ArrayOf(s.oneOf).None? && AnyOfOk(s.anyOf, v, other)
    ensures ValidAll(s, v, other)
  {
  }

  /** Some branch accepts the value. */
  lemma {:induction false} SoundAlternatives(s: Schema, ss: seq<Json>, g: Guide, v: Json, other: Meaning)
    requires ArrayOf(s.choices).None? && Alternatives(s) == Some(ss) && NonNull(ss) != []
    requires forall i | 0 <= i < |NonNull(ss)| :: InFragment(NonNull(ss)[i], other)
    requires TranslateSchema(s) == Ok(g) && Accepts(g, v)
    ensures exists i | 0 <= i < |ss| :: Valid(ss[i], v, other)
    decreases Weight(s), 0
  {
    var nonNull := NonNull(ss);
    if |nonNull| == 1 {
      Sound(nonNull[0], g, v, other);
      var k := NonNullMember(ss, 0);
    } else {
      var i :| 0 <= i < |g.options| && Accepts(g.options[i], v);
      OptionAt(nonNull, g.options, i);
      Sound(nonNull[i], g.options[i], v, other);
      var k := NonNullMember(ss, i);
    }
  }

  lemma {:induction false} SoundTypes(s: Schema, g: Guide, v: Json, other: Meaning)
    requires SchemaInFragment(s, other) && Plain(s)
    requires TranslateSchema(s) == Ok(g) && Accepts(g, v)
    ensures ValidAll(s, v, other)
    decreases Weight(s), 9
  {
    var names := TypeNames(s).value;
    var nonNull := WithoutNull(names);
    if nonNull == [] {
      assert names != [] && names[0] == "null";
      TypeFound(s, 0, v);
      NullValid(s, other);
    } else if |nonNull| > 1 {
      SoundNarrowed(s, nonNull, g, v, other);
    } else {
      var k := WithoutNullMember(names, 0);
      SoundType(s, k, g, v, other);
    }
  }

  lemma {:induction false} SoundNarrowed(s: Schema, names: seq<string>, g: Guide, v: Json, other: Meaning)
    requires SchemaInFragment(s, other) && Plain(s)
    requires TypeNames(s).Ok? && names == WithoutNull(TypeNames(s).value) && |names| > 1
    requires s.ty.Some? && s.ty.value.JArray? && |s.ty.value.items| > 1
    requires g.GAnyOf? && TranslateNarrowed(s, names) == Ok(g.options) && Accepts(g, v)
    ensures ValidAll(s, v, other)
    decreases Weight(s), 8
  {
    var i :| 0 <= i < |g.options| && Accepts(g.options[i], v);
    NarrowedAt(s, names, g.options, i);
    var k := WithoutNullMember(TypeNames(s).value, i);
    TypeChangeKeepsFragment(s, Some(JString(names[i])), other);
    SoundSchema(Narrow(s, names[i]), g.options[i], v, other);
    TypeFound(s, k, v);
    TypeIsAllThatChanged(s, Some(JString(names[i])), v, other);
  }

  lemma {:induction false} SoundType(s: Schema, k: nat, g: Guide, v: Json, other: Meaning)
    requires SchemaInFragment(s, other) && Plain(s)
    requires TypeNames(s).Ok? && k < |TypeNames(s).value|
    requires TranslateType(s, TypeNames(s).value[k]) == Ok(g) && Accepts(g, v)
    ensures ValidAll(s, v, other)
    decreases Weight(s), 8
  {
    TypeFound(s, k, v);
    var t := TypeNames(s).value[k];
    if t == "object" {
      SoundProperties(s, g, v, other);
    } else if t == "array" {
      SoundItems(s, g, v, other);
    } else {
      ScalarValid(s, v, other);
    }
  }

  lemma {:induction false} SoundItems(s: Schema, g: Guide, v: Json, other: Meaning)
    requires SchemaInFragment(s, other) && Plain(s) && Allows(s, "array") && TypeOk(s.ty, v)
    requires TranslateType(s, "array") == Ok(g) && Accepts(g, v)
    ensures ValidAll(s, v, other)
    decreases Weight(s), 7
  {
    BoundsKept(s, |v.items|);
    forall i | 0 <= i < |v.items|
      ensures Valid(s.items.value, v.items[i], other)
    {
      SoundStripped(s.items.value, g.element, v.items[i], other);
    }
  }

  lemma ScalarValid(s: Schema, v: Json, other: Meaning)
    requires Plain(s) && TypeOk(s.ty, v) && !v.JObject? && !v.JArray?
    ensures ValidAll(s, v, other)
  {
  }

  lemma {:induction false} SoundProperties(s: Schema, g: Guide, v: Json, other: Meaning)
    requires SchemaInFragment(s, other) && Plain(s) && Allows(s, "object") && TypeOk(s.ty, v)
    requires g.GObject? && TranslateProperties(PropertySchemas(s), RequiredNames(s)) == Ok(g.properties)
    requires Accepts(g, v)
    ensures ValidAll(s, v, other)
    decreases Weight(s), 7
  {
    var ps := PropertySchemas(s);
    forall i | 0 <= i < |ps| && Has(v.fields, ps[i].key)
      ensures Valid(ps[i].value, Lookup(v.fields, ps[i].key).value, other)
    {
      PropertyAt(ps, RequiredNames(s), g.properties, i);
      assert AcceptsMember(g.properties[i], Lookup(v.fields, g.properties[i].name));
      SoundStripped(ps[i].value, g.properties[i].guide, Lookup(v.fields, ps[i].key).value, other);
    }
    RequiredPresent(s, g, v);
  }

  lemma RequiredPresent(s: Schema, g: Guide, v: Json)
    requires RequiredListed(s)
    requires g.GObject? && TranslateProperties(PropertySchemas(s), RequiredNames(s)) == Ok(g.properties)
    requires Accepts(g, v)
    ensures RequiredOk(s.required, v)
  {
    if ArrayOf(s.required).Some? {
      var rs, ps := s.required.value.items, PropertySchemas(s);
      forall i | 0 <= i < |rs| && rs[i].JString?
        ensures Has(v.fields, rs[i].s)
      {
        StringIsListed(rs, i);
        var k :| 0 <= k < |ps| && ps[k].key == rs[i].s;
        PropertyAt(ps, RequiredNames(s), g.properties, k);
        assert AcceptsMember(g.properties[k], Lookup(v.fields, g.properties[k].name));
      }
    }
  }

  /** The compiled bounds let arrays of `n` items through. */
  predicate LengthAdmitted(s: Schema, n: nat)
  {
    && (IntValue(s.minItems).Some? ==> n >= IntValue(s.minItems).value)
    && (IntValue(s.maxItems).Some? ==> n <= IntValue(s.maxItems).value)
  }

  predicate LengthOk(s: Schema, n: nat)
  {
    AtLeast(n, s.minItems) && AtMost(n, s.maxItems)
  }

  lemma BoundsKept(s: Schema, n: nat)
    requires BoundsOk(s) && LengthAdmitted(s, n)
    ensures LengthOk(s, n)
  {
  }

  // ------------------------------------------------------------ nullable stripping

  lemma {:induction false} SoundStripped(raw: Json, g: Guide, v: Json, other: Meaning)
    requires InFragment(raw, other) && TranslateStripped(raw) == Ok(g) && Accepts(g, v)
    ensures Valid(raw, v, other)
    decreases Size(raw), 2
  {
    var s := Read(raw.fields);
    if NoAlternatives(s) && v.JObject? {
      DeclaredOnly(StripNullable(s), g, v);
    }
    KeywordsMet(raw.fields, v, other);
    if ArrayOf(s.choices).Some? {
      SoundEnum(s, ArrayOf(s.choices).value, g, v, other);
    } else if ArrayOf(s.anyOf).Some? {
      SoundStrippedAnyOf(s, ArrayOf(s.anyOf).value, g, v, other);
    } else {
      SoundStrippedTypes(s, g, v, other);
    }
  }

  lemma {:induction false} SoundStrippedAnyOf(s: Schema, ss: seq<Json>, g: Guide, v: Json, other: Meaning)
    requires SchemaInFragment(s, other) && s.choices.None? && s.anyOf == Some(JArray(ss))
    requires TranslateSchema(StripNullable(s)) == Ok(g) && Accepts(g, v)
    ensures ValidAll(s, v, other)
    decreases Weight(s) + 1, 1
  {
    NonNullTwice(ss);
    assert Alternatives(StripNullable(s)) == Some(NonNull(ss));
    SoundSchema(s, g, v, other);
  }

  lemma {:induction false} SoundStrippedTypes(s: Schema, g: Guide, v: Json, other: Meaning)
    requires SchemaInFragment(s, other) && Plain(s)
    requires TranslateSchema(StripNullable(s)) == Ok(g) && Accepts(g, v)
    ensures ValidAll(s, v, other)
    decreases Weight(s) + 1, 1
  {
    var ty := StripType(s.ty);
    assert StripNullable(s) == s.(ty := ty);
    if ty == s.ty {
      SoundSchema(s, g, v, other);
    } else {
      var ts := s.ty.value.items;
      if NonNullTypes(ts) == [] {
        assert ts[0] == NULL_TYPE;
        assert TypeNames(s.(ty := ty)) == Ok([]);
        assert TypeOk(s.ty, JNull);
        NullValid(s, other);
      } else {
        StrippedAllows(s, ts);
        TypeChangeKeepsFragment(s, ty, other);
        SoundSchema(s.(ty := ty), g, v, other);
        StrippedTypeOk(ts, v);
        TypeIsAllThatChanged(s, ty, v, other);
      }
    }
  }

  lemma StrippedAllows(s: Schema, ts: seq<Json>)
    requires s.ty == Some(JArray(ts))
    ensures forall t | Allows(s.(ty := StripType(s.ty)), t) :: Allows(s, t)
  {
    NonNullStrings(ts);
    var rest := NonNullTypes(ts);
    if |rest| == 1 && rest[0].JString? {
      assert Strings(rest[1..]) == [];
      assert Strings(rest) == [rest[0].s] + Strings(rest[1..]);
    }
  }

  lemma StrippedTypeOk(ts: seq<Json>, v: Json)
    requires TypeOk(StripType(Some(JArray(ts))), v)
    ensures TypeOk(Some(JArray(ts)), v)
  {
    var rest := NonNullTypes(ts);
    if |rest| == 1 && rest[0].JString? {
      var k := NonNullTypesMember(ts, 0);
    } else {
      var i :| 0 <= i < |rest| && rest[i].JString? && HasType(v, rest[i].s);
      var k := NonNullTypesMember(ts, i);
    }
  }
}
