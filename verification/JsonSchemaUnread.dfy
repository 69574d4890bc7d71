/** What the keywords cost that the schema compiler never looks at. */
module JsonSchemaUnread {
  import opened Options
  import opened JsonSchema
  import opened JsonSchemaSoundness
  import opened JsonSchemaLimits

  predicate Looked(key: string)
  {
    || key == "type" || key == "enum" || key == "anyOf" || key == "oneOf" || key == "properties"
    || key == "required" || key == "items" || key == "minItems" || key == "maxItems"
  }

  ghost predicate NoneUnread(fs: seq<Field>)
  {
    forall i | 0 <= i < |fs| :: !Unread(fs[i].key)
  }

  /** The values that the guide of `fs` lets through are valid against `raw` as well. */
  ghost predicate KeepsSound(g: Guide, raw: Json, other: Meaning)
  {
    forall v | Accepts(g, v) :: Valid(raw, v, other)
  }

  lemma {:induction false} LookupSkips(fs: seq<Field>, f: Field, key: string)
    requires key != f.key
    ensures Lookup(fs + [f], key) == Lookup(fs, key)
  {
    if fs == [] {
      assert [f][1..] == [];
    } else {
      assert (fs + [f])[1..] == fs[1..] + [f];
      LookupSkips(fs[1..], f, key);
    }
  }

  lemma ReadSkips(fs: seq<Field>, f: Field)
    requires !Looked(f.key)
    ensures Read(fs + [f]) == Read(fs)
  {
    LookupSkips(fs, f, "type");
    LookupSkips(fs, f, "enum");
    LookupSkips(fs, f, "anyOf");
    LookupSkips(fs, f, "oneOf");
    LookupSkips(fs, f, "properties");
    LookupSkips(fs, f, "required");
    LookupSkips(fs, f, "items");
    LookupSkips(fs, f, "minItems");
    LookupSkips(fs, f, "maxItems");
  }

  /** Any other keyword leaves the guide as it is. */
  lemma UnreadIgnored(fs: seq<Field>, f: Field)
    requires !Looked(f.key)
    ensures Translate(JObject(fs + [f])) == Translate(JObject(fs))
    ensures TranslateStripped(JObject(fs + [f])) == TranslateStripped(JObject(fs))
  {
    ReadSkips(fs, f);
  }

  /** And it narrows what is valid to the values that meet it, whatever it means. */
  lemma UnreadNarrows(fs: seq<Field>, f: Field, v: Json, other: Meaning)
    requires !Looked(f.key) && NoneUnread(fs)
    ensures Valid(JObject(fs + [f]), v, other) <==> Valid(JObject(fs), v, other) && UnreadOk(fs + [f], f, v, other)
  {
    ReadSkips(fs, f);
    NothingAsked(fs, fs, v, other);
    NothingAsked(fs + [f], fs, v, other);
    LastDecides(fs, f, v, other);
  }

  lemma LastDecides(fs: seq<Field>, f: Field, v: Json, other: Meaning)
    requires forall i | 0 <= i < |fs| :: UnreadOk(fs + [f], fs[i], v, other)
    ensures (forall i | 0 <= i <= |fs| :: UnreadOk(fs + [f], (fs + [f])[i], v, other))
       <==> UnreadOk(fs + [f], f, v, other)
  {
    assert (fs + [f])[|fs|] == f;
  }

  lemma NothingAsked(siblings: seq<Field>, fs: seq<Field>, v: Json, other: Meaning)
    requires NoneUnread(fs)
    ensures forall i | 0 <= i < |fs| :: UnreadOk(siblings, fs[i], v, other)
  {
  }

  /** Every value of the guide meets the keyword. */
  ghost predicate AllMeet(g: Guide, fs: seq<Field>, f: Field, other: Meaning)
  {
    forall v | Accepts(g, v) :: UnreadOk(fs, f, v, other)
  }

  /** For every keyword and every meaning of it: adding it keeps soundness exactly when
      every value of the guide meets it. */
  lemma UnreadSoundIff(fs: seq<Field>, f: Field, g: Guide, other: Meaning)
    requires !Looked(f.key) && NoneUnread(fs) && InFragment(JObject(fs), other) && Translate(JObject(fs)) == Ok(g)
    ensures Translate(JObject(fs + [f])) == Ok(g)
    ensures KeepsSound(g, JObject(fs + [f]), other) <==> AllMeet(g, fs + [f], f, other)
  {
    UnreadIgnored(fs, f);
    if KeepsSound(g, JObject(fs + [f]), other) {
      MetWhenSound(fs, f, g, other);
    }
    if AllMeet(g, fs + [f], f, other) {
      SoundWhenMet(fs, f, g, other);
    }
  }

  lemma MetWhenSound(fs: seq<Field>, f: Field, g: Guide, other: Meaning)
    requires !Looked(f.key) && NoneUnread(fs) && InFragment(JObject(fs), other) && Translate(JObject(fs)) == Ok(g)
    requires KeepsSound(g, JObject(fs + [f]), other)
    ensures AllMeet(g, fs + [f], f, other)
  {
    forall v | Accepts(g, v)
      ensures UnreadOk(fs + [f], f, v, other)
    {
      UnreadDecides(fs, f, g, v, other);
    }
  }

  lemma SoundWhenMet(fs: seq<Field>, f: Field, g: Guide, other: Meaning)
    requires !Looked(f.key) && NoneUnread(fs) && InFragment(JObject(fs), other) && Translate(JObject(fs)) == Ok(g)
    requires AllMeet(g, fs + [f], f, other)
    ensures KeepsSound(g, JObject(fs + [f]), other)
  {
    forall v | Accepts(g, v)
      ensures Valid(JObject(fs + [f]), v, other)
    {
      UnreadDecides(fs, f, g, v, other);
    }
  }

  lemma UnreadDecides(fs: seq<Field>, f: Field, g: Guide, v: Json, other: Meaning)
    requires !Looked(f.key) && NoneUnread(fs) && InFragment(JObject(fs), other) && Translate(JObject(fs)) == Ok(g)
    requires Accepts(g, v)
    ensures Valid(JObject(fs + [f]), v, other) <==> UnreadOk(fs + [f], f, v, other)
  {
    Sound(JObject(fs), g, v, other);
    UnreadNarrows(fs, f, v, other);
  }

  /** additionalProperties costs nothing where no alternatives are compiled, whatever it
      asks: a guide yields no property that is not declared. */
  lemma AdditionalPropertiesKept(fs: seq<Field>, p: Json, other: Meaning)
    requires InFragment(JObject(fs), other) && NoAlternatives(Read(fs))
    ensures InFragment(JObject(fs + [Field("additionalProperties", p)]), other)
  {
    var f := Field("additionalProperties", p);
    assert |f.key| == 20;
    ReadSkips(fs, f);
    var gs := fs + [f];
    forall i | 0 <= i < |gs| && Unread(gs[i].key)
      ensures gs[i].key == "additionalProperties"
    {
      assert i < |fs| ==> gs[i] == fs[i];
    }
  }

  // ----------------------------------------------------------------------- some of them

  lemma NotLooked()
    ensures !Looked("minimum") && !Looked("minLength") && !Looked("const") && !Looked("uniqueItems")
  {
    assert |"minimum"| == 7 && |"minLength"| == 9 && |"uniqueItems"| == 11;
    assert |"const"| == 5 && "const"[0] == 'c' && "anyOf"[0] == 'a' && "oneOf"[0] == 'o' && "items"[0] == 'i';
  }

  lemma TypedIsBare(t: string)
    ensures NoneUnread(Typed(t).fields)
  {
    assert |"type"| == 4;
    assert "type"[0] == 't' && "then"[0] == 't' && "type"[1] == 'y' && "then"[1] == 'h' && "else"[0] == 'e';
    assert "$ref"[0] == '$';
  }

  /** No least integer is ever kept, whatever it is. */
  lemma MinimumIgnored(bound: Json, other: Meaning)
    requires IsNumber(bound)
    ensures var raw := JObject(Typed("integer").fields + [Field("minimum", bound)]);
            Translate(raw) == Ok(GInt) && !KeepsSound(GInt, raw, other)
  {
    var v := JInt(Number(bound).Floor - 1);
    TypedMeans("integer", other);
    TypedIsBare("integer");
    NotLooked();
    var f := Field("minimum", bound);
    UnreadSoundIff(Typed("integer").fields, f, GInt, other);
    BelowMinimum(Typed("integer").fields + [f], bound, v, other);
    assert Accepts(GInt, v);
  }

  lemma BelowMinimum(fs: seq<Field>, bound: Json, v: Json, other: Meaning)
    requires IsNumber(bound) && IsNumber(v) && Number(v) < Number(bound)
    ensures !UnreadOk(fs, Field("minimum", bound), v, other)
  {
  }

  /** A least length of a string is kept when it asks for nothing. */
  lemma MinLengthIff(n: int, other: Meaning)
    ensures var raw := JObject(Typed("string").fields + [Field("minLength", JInt(n))]);
            Translate(raw) == Ok(GString) && (KeepsSound(GString, raw, other) <==> n <= 0)
  {
    var f := Field("minLength", JInt(n));
    TypedMeans("string", other);
    TypedIsBare("string");
    NotLooked();
    UnreadSoundIff(Typed("string").fields, f, GString, other);
    LengthMeans(Typed("string").fields + [f], n, other);
  }

  lemma LengthMeans(fs: seq<Field>, n: int, other: Meaning)
    ensures AllMeet(GString, fs, Field("minLength", JInt(n)), other) <==> n <= 0
  {
    var f := Field("minLength", JInt(n));
    assert |f.key| == 9 && |"minimum"| == 7 && |"maximum"| == 7
        && |"exclusiveMinimum"| == 16 && |"exclusiveMaximum"| == 16;
    assert Accepts(GString, JString(""));
    assert UnreadOk(fs, f, JString(""), other) <==> n <= 0;
  }

  lemma ConstMeans(fs: seq<Field>, c: Json, v: Json, other: Meaning)
    ensures UnreadOk(fs, Field("const", c), v, other) <==> Same(v, c)
  {
    assert |"const"| == 5 && |"minimum"| == 7 && |"maximum"| == 7 && |"minLength"| == 9 && |"maxLength"| == 9
        && |"exclusiveMinimum"| == 16 && |"exclusiveMaximum"| == 16;
  }

  /** The guide yields nothing but the constant. */
  ghost predicate Only(g: Guide, c: Json)
    decreases g
  {
    match g
    case GString => false
    case GInt => false
    case GDouble => false
    case GBool => false
    case GNull => c == JNull
    case GChoices(choices) => forall i | 0 <= i < |choices| :: c == JString(choices[i])
    case GAnyOf(options) => forall i | 0 <= i < |options| :: Only(options[i], c)
    case GObject(_) => forall v | Accepts(g, v) :: Same(v, c)
    case GArray(_, _, _) => forall v | Accepts(g, v) :: Same(v, c)
  }

  lemma {:induction false} OnlyMeant(g: Guide, c: Json, v: Json)
    requires Only(g, c) && Accepts(g, v)
    ensures Same(v, c)
    decreases g
  {
    match g
    case GString =>
    case GInt =>
    case GDouble =>
    case GBool =>
    case GNull =>
    case GChoices(choices) =>
    case GAnyOf(options) =>
      var i :| 0 <= i < |options| && Accepts(options[i], v);
      OnlyMeant(options[i], c, v);
    case GObject(_) =>
    case GArray(_, _, _) =>
  }

  lemma Another(g: Guide, c: Json) returns (v: Json)
    requires g.GString? || g.GInt? || g.GDouble? || g.GBool?
    ensures Accepts(g, v) && !Same(v, c)
  {
    if g.GString? {
      v := JString(if c == JString("") then "a" else "");
    } else if g.GBool? {
      v := JBool(c != JBool(true));
    } else {
      v := JInt(if Same(JInt(0), c) then 1 else 0);
    }
  }

  lemma {:induction false} OnlyNeeded(g: Guide, c: Json)
    requires AllSame(g, c)
    ensures Only(g, c)
    decreases g
  {
    match g
    case GString => var v := Another(g, c);
    case GInt => var v := Another(g, c);
    case GDouble => var v := Another(g, c);
    case GBool => var v := Another(g, c);
    case GNull => assert Accepts(g, JNull);
    case GChoices(choices) => assert forall i | 0 <= i < |choices| :: Accepts(g, JString(choices[i]));
    case GAnyOf(options) =>
      forall i | 0 <= i < |options|
        ensures Only(options[i], c)
      {
        assert forall v | Accepts(options[i], v) :: Accepts(g, v);
        OnlyNeeded(options[i], c);
      }
    case GObject(_) =>
    case GArray(_, _, _) =>
  }

  /** A constant is kept when the guide yields nothing else. */
  lemma ConstIff(fs: seq<Field>, c: Json, g: Guide, other: Meaning)
    requires NoneUnread(fs) && InFragment(JObject(fs), other) && Translate(JObject(fs)) == Ok(g)
    ensures KeepsSound(g, JObject(fs + [Field("const", c)]), other) <==> Only(g, c)
  {
    var f := Field("const", c);
    NotLooked();
    UnreadSoundIff(fs, f, g, other);
    ConstAsked(g, fs + [f], c, other);
  }

  lemma ConstAsked(g: Guide, fs: seq<Field>, c: Json, other: Meaning)
    ensures AllMeet(g, fs, Field("const", c), other) <==> Only(g, c)
  {
    ConstForAll(g, fs, c, other);
    if AllSame(g, c) {
      OnlyNeeded(g, c);
    }
    if Only(g, c) {
      forall v | Accepts(g, v)
        ensures Same(v, c)
      {
        OnlyMeant(g, c, v);
      }
    }
  }

  ghost predicate AllSame(g: Guide, c: Json)
  {
    forall v | Accepts(g, v) :: Same(v, c)
  }

  lemma ConstForAll(g: Guide, fs: seq<Field>, c: Json, other: Meaning)
    ensures AllMeet(g, fs, Field("const", c), other) <==> AllSame(g, c)
  {
    forall v | Accepts(g, v)
      ensures UnreadOk(fs, Field("const", c), v, other) <==> Same(v, c)
    {
      ConstMeans(fs, c, v, other);
    }
  }

  // ---------------------------------------------------------------------- unique items

  lemma {:induction false} SameSelf(a: Json)
    ensures Same(a, a)
    decreases a
  {
    match a
    case JObject(fs) =>
      forall i | 0 <= i < |fs|
        ensures Has(fs, fs[i].key)
      {
        HasMember(fs, i);
      }
      forall i | 0 <= i < |fs| && First(fs, i)
        ensures Same(fs[i].value, Lookup(fs, fs[i].key).value)
      {
        FirstFound(fs, i);
        SameSelf(fs[i].value);
      }
    case JArray(xs) =>
      forall i | 0 <= i < |xs|
        ensures Same(xs[i], xs[i])
      {
        SameSelf(xs[i]);
      }
    case JInt(_) =>
    case JDouble(_) =>
    case JString(_) =>
    case JBool(_) =>
    case JNull =>
  }

  lemma {:induction false} FirstFound(fs: seq<Field>, i: nat)
    requires i < |fs| && First(fs, i)
    ensures Lookup(fs, fs[i].key) == Some(fs[i].value)
  {
    if i > 0 {
      assert fs[0].key != fs[i].key;
      assert forall k | 0 <= k < i - 1 :: fs[1..][k] == fs[k + 1];
      FirstFound(fs[1..], i - 1);
    }
  }

  lemma UniqueMeans(fs: seq<Field>, v: Json, other: Meaning)
    ensures UnreadOk(fs, Field("uniqueItems", JBool(true)), v, other) <==> (v.JArray? ==> AllDifferent(v.items))
  {
    assert |"uniqueItems"| == 11 && |"minimum"| == 7 && |"maximum"| == 7 && |"minLength"| == 9 && |"maxLength"| == 9
        && |"exclusiveMinimum"| == 16 && |"exclusiveMaximum"| == 16 && |"const"| == 5;
  }

  /** The bounds let no array of two or more through. */
  predicate AtMostOne(min: Option<int>, max: Option<int>)
  {
    max.Some? && (max.value <= 1 || (min.Some? && min.value > max.value))
  }

  /** Given one value for the items, uniqueItems is kept when no array has two. */
  lemma UniqueItemsIff(fs: seq<Field>, e: Guide, min: Option<int>, max: Option<int>, x: Json, other: Meaning)
    requires NoneUnread(fs) && InFragment(JObject(fs), other) && Translate(JObject(fs)) == Ok(GArray(e, min, max))
    requires Accepts(e, x)
    ensures KeepsSound(GArray(e, min, max), JObject(fs + [Field("uniqueItems", JBool(true))]), other)
       <==> AtMostOne(min, max)
  {
    var f, g := Field("uniqueItems", JBool(true)), GArray(e, min, max);
    NotLooked();
    UnreadSoundIff(fs, f, g, other);
    UniqueAsked(g, fs + [f], other);
    UniqueMeant(e, min, max, x);
  }

  lemma UniqueAsked(g: Guide, fs: seq<Field>, other: Meaning)
    requires g.GArray?
    ensures AllMeet(g, fs, Field("uniqueItems", JBool(true)), other)
       <==> (forall v | Accepts(g, v) :: AllDifferent(v.items))
  {
    forall v | Accepts(g, v)
      ensures UnreadOk(fs, Field("uniqueItems", JBool(true)), v, other) <==> AllDifferent(v.items)
    {
      UniqueMeans(fs, v, other);
    }
  }

  lemma UniqueMeant(e: Guide, min: Option<int>, max: Option<int>, x: Json)
    requires Accepts(e, x)
    ensures (forall v | Accepts(GArray(e, min, max), v) :: AllDifferent(v.items)) <==> AtMostOne(min, max)
  {
    if !AtMostOne(min, max) {
      var v := Twins(e, min, max, x);
      assert Accepts(GArray(e, min, max), v) && !AllDifferent(v.items);
    }
  }

  /** An array of copies. */
  lemma Twins(e: Guide, min: Option<int>, max: Option<int>, x: Json) returns (v: Json)
    requires Accepts(e, x) && !AtMostOne(min, max)
    ensures Accepts(GArray(e, min, max), v) && !AllDifferent(v.items)
  {
    var n := if min.Some? && min.value > 2 then min.value else 2;
    v := JArray(seq(n, _ => x));
    SameSelf(x);
    assert v.items[0] == v.items[1] == x;
  }

  // ------------------------------------------------- in branches that are not compiled

  function Constant(c: Json): (raw: Json)
  {
    JObject([Field("const", c)])
  }

  lemma ConstantMeans(c: Json, v: Json, other: Meaning)
    requires Valid(Constant(c), v, other)
    ensures Same(v, c)
  {
    var fs := Constant(c).fields;
    ConstMeans(fs, c, v, other);
    assert fs[0] == Field("const", c);
  }

  /** Alternatives beside an enum are not compiled: "a" passes where it must also be "b". */
  lemma ConstBesideEnum(other: Meaning)
    ensures LetsThrough(BARE.(choices := Some(JArray([JString("a")])), anyOf := Some(JArray([Constant(JString("b"))]))),
                        JString("a"), other)
  {
    var ss := [Constant(JString("b"))];
    assert Strings([JString("a")]) == ["a"];
    assert !AnyOfOk(Some(JArray(ss)), JString("a"), other) by {
      if Valid(ss[0], JString("a"), other) {
        ConstantMeans(JString("b"), JString("a"), other);
      }
    }
  }

  /** Nor are null branches: null passes where it must also be 5. */
  lemma ConstInNullBranch(other: Meaning)
    ensures LetsThrough(BARE.(anyOf := Some(JArray([JObject([Field("type", NULL_TYPE), Field("const", JInt(5))])]))),
                        JNull, other)
  {
    var fs := [Field("type", NULL_TYPE), Field("const", JInt(5))];
    var ss := [JObject(fs)];
    assert Lookup(fs, "type") == Some(NULL_TYPE);
    assert IsNullSchema(ss[0]) && ss[1..] == [];
    assert NonNull(ss) == [];
    assert !AnyOfOk(Some(JArray(ss)), JNull, other) by {
      ConstMeans(fs, JInt(5), JNull, other);
      assert fs[1] == Field("const", JInt(5));
    }
  }
}
