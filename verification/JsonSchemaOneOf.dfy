/** When exactly oneOf is compiled soundly. */
module JsonSchemaOneOf {
  import opened Options
  import opened JsonSchema
  import opened JsonSchemaSoundness
  import opened JsonSchemaLimits

  // ------------------------------------------------------------------ two branches

  /** oneOf is compiled as anyOf: an accepted value is wrong when it meets two branches. */
  lemma OneOfTwice(s: Schema, ss: seq<Json>, g: Guide, other: Meaning)
    requires NoSiblings(s) && ArrayOf(s.anyOf).None?
    requires s.oneOf == Some(JArray(ss)) && NonNull(ss) != []
    requires forall i | 0 <= i < |NonNull(ss)| :: InFragment(NonNull(ss)[i], other)
    requires TranslateSchema(s) == Ok(g)
    ensures SoundFor(s, other) <==> forall v | Accepts(g, v) :: !TwoValid(ss, v, other)
  {
    forall v | Accepts(g, v)
      ensures ValidAll(s, v, other) <==> !TwoValid(ss, v, other)
    {
      SoundAlternatives(s, ss, g, v, other);
      OneAlone(s, ss, v, other);
    }
  }

  predicate TwoValid(ss: seq<Json>, v: Json, other: Meaning)
  {
    exists i, j | 0 <= i < j < |ss| :: Valid(ss[i], v, other) && Valid(ss[j], v, other)
  }

  lemma OneAlone(s: Schema, ss: seq<Json>, v: Json, other: Meaning)
    requires NoSiblings(s) && ArrayOf(s.anyOf).None? && s.oneOf == Some(JArray(ss))
    requires exists i | 0 <= i < |ss| :: Valid(ss[i], v, other)
    ensures ValidAll(s, v, other) <==> !TwoValid(ss, v, other)
  {
    OneOfMeans(ss, v, other);
  }

  lemma OneOfMeans(ss: seq<Json>, v: Json, other: Meaning)
    requires exists i | 0 <= i < |ss| :: Valid(ss[i], v, other)
    ensures OneOfOk(Some(JArray(ss)), v, other) <==> !TwoValid(ss, v, other)
  {
    var k :| 0 <= k < |ss| && Valid(ss[k], v, other);
    if TwoValid(ss, v, other) {
      var i, j :| 0 <= i < j < |ss| && Valid(ss[i], v, other) && Valid(ss[j], v, other);
      NotOnlyOne(ss, v, i, j, other);
    } else {
      OnlyOne(ss, v, k, other);
    }
  }

  lemma NotOnlyOne(ss: seq<Json>, v: Json, i: nat, j: nat, other: Meaning)
    requires i < j < |ss| && Valid(ss[i], v, other) && Valid(ss[j], v, other)
    ensures !OneOfOk(Some(JArray(ss)), v, other)
  {
  }

  lemma OnlyOne(ss: seq<Json>, v: Json, k: nat, other: Meaning)
    requires k < |ss| && Valid(ss[k], v, other) && !TwoValid(ss, v, other)
    ensures OneOfOk(Some(JArray(ss)), v, other)
  {
    assert forall j | 0 <= j < k :: !Valid(ss[j], v, other);
    assert forall j | k < j < |ss| :: !Valid(ss[j], v, other);
  }

  /** A nullable branch, `x` or null: sound when `x` itself does not take null. */
  lemma NullableOneOfIff(s: Schema, x: Json, g: Guide, other: Meaning)
    requires NoSiblings(s) && ArrayOf(s.anyOf).None? && s.oneOf == Some(JArray([x, Typed("null")]))
    requires InFragment(x, other) && !IsNullSchema(x) && Translate(x) == Ok(g)
    ensures SoundFor(s, other) <==> !Accepts(g, JNull)
  {
    var ss := [x, Typed("null")];
    NullDropped(x, other);
    OneOfTwice(s, ss, g, other);
    forall v | Accepts(g, v)
      ensures TwoValid(ss, v, other) <==> v == JNull
    {
      Sound(x, g, v, other);
      TwoWithNull(x, v, other);
    }
  }

  lemma NullDropped(x: Json, other: Meaning)
    requires !IsNullSchema(x)
    ensures NonNull([x, Typed("null")]) == [x]
  {
    var nil := Typed("null");
    TypedMeans("null", other);
    assert [x, nil][1..] == [nil] && [nil][1..] == [];
    assert NonNull([nil]) == [];
    assert NonNull([x, nil]) == [x] + [];
  }

  lemma TwoWithNull(x: Json, v: Json, other: Meaning)
    requires Valid(x, v, other)
    ensures TwoValid([x, Typed("null")], v, other) <==> v == JNull
  {
    var ss := [x, Typed("null")];
    NullTakesNullOnly(v, other);
    assert Valid(ss[0], v, other) && (Valid(ss[1], v, other) <==> v == JNull);
  }

  lemma NullTakesNullOnly(v: Json, other: Meaning)
    ensures Valid(Typed("null"), v, other) <==> v == JNull
  {
    TypedMeans("null", other);
    var fs := Typed("null").fields;
    if v.JNull? {
      Sound(Typed("null"), GNull, v, other);
    } else {
      OtherTypeRefused(Read(fs), "null", v, other);
    }
  }

  lemma TranslatedTwice(raw: Json, g: Guide)
    requires Translate(raw) == Ok(g)
    ensures TranslateAll([raw, raw]) == Ok([g, g])
  {
    assert [raw, raw][1..] == [raw] && [raw][1..] == [];
    assert TranslateAll([raw][1..]) == Ok([]);
    assert [g] + [] == [g] && [g] + [g] == [g, g];
    assert TranslateAll([raw]) == Ok([g] + []);
  }

  /** A value of two branches passes. */
  lemma OneOfIsNotExclusive(other: Meaning)
    ensures LetsThrough(BARE.(oneOf := Some(JArray([Typed("string"), Typed("string")]))), JString("a"), other)
  {
    TypedMeans("string", other);
    var s := BARE.(oneOf := Some(JArray([Typed("string"), Typed("string")])));
    BranchTwice(s, Typed("string"), GString, JString("a"), other);
  }

  /** Any branch named twice: none of its values is valid, and all are let through. */
  lemma BranchTwice(s: Schema, raw: Json, g: Guide, v: Json, other: Meaning)
    requires ArrayOf(s.choices).None? && ArrayOf(s.anyOf).None? && s.oneOf == Some(JArray([raw, raw]))
    requires InFragment(raw, other) && !IsNullSchema(raw) && Translate(raw) == Ok(g) && Accepts(g, v)
    ensures LetsThrough(s, v, other)
  {
    TwoBranches(s, raw, g);
    assert Accepts(GAnyOf([g, g]), v) by {
      assert [g, g][0] == g;
    }
    Sound(raw, g, v, other);
    BothBranches(s, raw, v, other);
  }

  lemma BothBranches(s: Schema, raw: Json, v: Json, other: Meaning)
    requires s.oneOf == Some(JArray([raw, raw])) && Valid(raw, v, other)
    ensures !ValidAll(s, v, other)
  {
    assert [raw, raw][0] == [raw, raw][1] == raw;
    NotOnlyOne([raw, raw], v, 0, 1, other);
  }

  lemma TwoBranches(s: Schema, raw: Json, g: Guide)
    requires ArrayOf(s.choices).None? && Alternatives(s) == Some([raw, raw]) && !IsNullSchema(raw)
    requires Translate(raw) == Ok(g)
    ensures TranslateSchema(s) == Ok(GAnyOf([g, g]))
  {
    assert [raw, raw][1..] == [raw] && [raw][1..] == [];
    assert NonNull([raw]) == [raw] + [] && NonNull([raw, raw]) == [raw] + [raw] == [raw, raw];
    TranslatedTwice(raw, g);
  }

  // ----------------------------------------------------- what a branch makes of scalars

  /** Read off the schema: some string is valid. */
  predicate TakesStrings(raw: Json)
    decreases Size(raw), 1
  {
    raw.JObject? && !IsNullSchema(raw) && TakesStringsAll(Read(raw.fields))
  }

  predicate TakesStringsAll(s: Schema)
    decreases Weight(s) + 1, 0
  {
    if ArrayOf(s.choices).Some? then true
    else if ArrayOf(s.anyOf).Some? then
      var nonNull := NonNull(ArrayOf(s.anyOf).value);
      exists i | 0 <= i < |nonNull| :: TakesStrings(nonNull[i])
    else AdmitsStrings(s.ty)
  }

  /** Some value of the guide is valid against the schema. For scalars one value of each
      kind decides. */
  ghost predicate Touches(g: Guide, raw: Json, other: Meaning)
    decreases g
  {
    match g
    case GString => TakesStrings(raw)
    case GInt => Valid(raw, JInt(0), other)
    case GDouble => Valid(raw, JInt(0), other)
    case GBool => Valid(raw, JBool(true), other)
    case GNull => Valid(raw, JNull, other)
    case GChoices(choices) => exists i | 0 <= i < |choices| :: Valid(raw, JString(choices[i]), other)
    case GAnyOf(options) => exists i | 0 <= i < |options| :: Touches(options[i], raw, other)
    case GObject(_) => exists v :: Accepts(g, v) && Valid(raw, v, other)
    case GArray(_, _, _) => exists v :: Accepts(g, v) && Valid(raw, v, other)
  }

  lemma NullRefuses(raw: Json, v: Json, other: Meaning)
    requires IsNullSchema(raw) && Valid(raw, v, other)
    ensures v == JNull
  {
    assert HasType(v, "null");
  }

  lemma {:induction false} NonNullIndex(ss: seq<Json>, i: nat) returns (k: nat)
    requires i < |ss| && !IsNullSchema(ss[i])
    ensures k < |NonNull(ss)| && NonNull(ss)[k] == ss[i]
  {
    if i == 0 {
      k := 0;
    } else {
      k := NonNullIndex(ss[1..], i - 1);
      k := if IsNullSchema(ss[0]) then k else k + 1;
    }
  }

  lemma {:induction false} NoNullLeft(ss: seq<Json>)
    ensures forall i | 0 <= i < |NonNull(ss)| :: !IsNullSchema(NonNull(ss)[i])
  {
    if ss != [] {
      NoNullLeft(ss[1..]);
    }
  }

  lemma {:induction false} AllTranslated(ss: seq<Json>, gs: seq<Guide>)
    requires TranslateAll(ss) == Ok(gs)
    ensures |gs| == |ss|
  {
    if ss != [] {
      AllTranslated(ss[1..], gs[1..]);
    }
  }

  /** Each branch that is left is compiled, and the guide takes what its guide takes. */
  lemma BranchGuide(s: Schema, ss: seq<Json>, g: Guide, k: nat)
    requires ArrayOf(s.choices).None? && Alternatives(s) == Some(ss) && TranslateSchema(s) == Ok(g)
    requires k < |NonNull(ss)|
    ensures Translate(NonNull(ss)[k]).Ok?
    ensures forall v | Accepts(Translate(NonNull(ss)[k]).value, v) :: Accepts(g, v)
  {
    var nonNull := NonNull(ss);
    if |nonNull| > 1 {
      AllTranslated(nonNull, g.options);
      OptionAt(nonNull, g.options, k);
    }
  }

  /** A value that the guide takes is taken by the guide of some branch. */
  lemma SomeBranchGuide(s: Schema, ss: seq<Json>, g: Guide, v: Json) returns (k: nat)
    requires ArrayOf(s.choices).None? && Alternatives(s) == Some(ss) && TranslateSchema(s) == Ok(g)
    requires NonNull(ss) != [] && Accepts(g, v)
    ensures k < |NonNull(ss)| && Translate(NonNull(ss)[k]).Ok? && Accepts(Translate(NonNull(ss)[k]).value, v)
  {
    var nonNull := NonNull(ss);
    k := 0;
    if |nonNull| > 1 {
      k :| 0 <= k < |g.options| && Accepts(g.options[k], v);
      OptionAt(nonNull, g.options, k);
    }
  }

  /** What is valid and not null is valid against a branch that is compiled. */
  lemma ValidBranch(raw: Json, ss: seq<Json>, v: Json, other: Meaning) returns (i: nat)
    requires InFragment(raw, other) && Translate(raw).Ok? && Valid(raw, v, other) && v != JNull
    requires var s := Read(raw.fields); ArrayOf(s.choices).None? && s.anyOf == Some(JArray(ss))
    ensures i < |ss| && !IsNullSchema(ss[i]) && Valid(ss[i], v, other)
    ensures InFragment(ss[i], other) && Translate(ss[i]).Ok? && Size(ss[i]) < Size(raw)
  {
    var s := Read(raw.fields);
    assert AnyOfOk(s.anyOf, v, other);
    i :| 0 <= i < |ss| && Valid(ss[i], v, other);
    if IsNullSchema(ss[i]) {
      NullRefuses(ss[i], v, other);
    }
    var k := NonNullIndex(ss, i);
    BranchGuide(s, ss, TranslateSchema(s).value, k);
  }

  /** A number stands for zero, and a truth value for true. */
  predicate Represents(w: Json, v: Json)
  {
    (w == JInt(0) && IsNumber(v)) || (w == JBool(true) && v.JBool?)
  }

  /** In the fragment what holds of a number holds of zero, and likewise for true. */
  lemma {:induction false} ScalarsAlike(raw: Json, v: Json, w: Json, other: Meaning)
    requires InFragment(raw, other) && Translate(raw).Ok? && Valid(raw, v, other) && Represents(w, v)
    ensures Valid(raw, w, other)
    decreases Size(raw)
  {
    var s := Read(raw.fields);
    KeywordsMet(raw.fields, w, other);
    if ArrayOf(s.choices).Some? {
      NoScalarInEnum(ArrayOf(s.choices).value, v);
    } else if ArrayOf(s.anyOf).Some? {
      var ss := ArrayOf(s.anyOf).value;
      var i := ValidBranch(raw, ss, v, other);
      ScalarsAlike(ss[i], v, w, other);
      Alone(s, w, other);
    } else {
      TypesAlike(s.ty, v, w);
      ScalarValid(s, w, other);
    }
  }

  lemma NoScalarInEnum(vs: seq<Json>, v: Json)
    requires |Strings(vs)| == |vs| && !v.JString?
    ensures !EnumOk(Some(JArray(vs)), v)
  {
    StringsAt(vs);
  }

  lemma TypesAlike(ty: Option<Json>, v: Json, w: Json)
    requires TypeOk(ty, v) && Represents(w, v)
    ensures TypeOk(ty, w)
  {
    if ty.Some? && ty.value.JArray? {
      var i :| 0 <= i < |ty.value.items| && ty.value.items[i].JString? && HasType(v, ty.value.items[i].s);
      assert HasType(w, ty.value.items[i].s);
    }
  }

  /** A valid string shows in the schema. */
  lemma {:induction false} StringsShow(raw: Json, c: string, other: Meaning)
    requires InFragment(raw, other) && Translate(raw).Ok? && Valid(raw, JString(c), other)
    ensures TakesStrings(raw)
    decreases Size(raw)
  {
    var s := Read(raw.fields);
    if IsNullSchema(raw) {
      NullRefuses(raw, JString(c), other);
    }
    if ArrayOf(s.choices).None? {
      if ArrayOf(s.anyOf).Some? {
        var ss := ArrayOf(s.anyOf).value;
        var i := ValidBranch(raw, ss, JString(c), other);
        StringsShow(ss[i], c, other);
        var k := NonNullIndex(ss, i);
      } else {
        TypeOkString(s.ty, c);
      }
    }
  }

  /** And what shows is there. */
  lemma {:induction false} StringsTaken(raw: Json, other: Meaning) returns (c: string)
    requires InFragment(raw, other) && Translate(raw).Ok? && TakesStrings(raw)
    ensures Valid(raw, JString(c), other)
    decreases Size(raw)
  {
    var s := Read(raw.fields);
    c := "";
    if ArrayOf(s.choices).Some? {
      c := Strings(ArrayOf(s.choices).value)[0];
      Sound(raw, Translate(raw).value, JString(c), other);
    } else if ArrayOf(s.anyOf).Some? {
      var ss := ArrayOf(s.anyOf).value;
      var k :| 0 <= k < |NonNull(ss)| && TakesStrings(NonNull(ss)[k]);
      BranchGuide(s, ss, TranslateSchema(s).value, k);
      c := StringsTaken(NonNull(ss)[k], other);
      var i := NonNullMember(ss, k);
      Alone(s, JString(c), other);
      KeywordsMet(raw.fields, JString(c), other);
    } else {
      TypeOkString(s.ty, c);
      ScalarValid(s, JString(c), other);
      KeywordsMet(raw.fields, JString(c), other);
    }
  }

  /** A branch: null, which is dropped, or compiled. */
  predicate Branch(raw: Json, other: Meaning)
  {
    IsNullSchema(raw) || (InFragment(raw, other) && Translate(raw).Ok?)
  }

  lemma ScalarTouches(raw: Json, v: Json, w: Json, other: Meaning)
    requires Branch(raw, other) && Valid(raw, v, other) && Represents(w, v)
    ensures Valid(raw, w, other)
  {
    if IsNullSchema(raw) {
      NullRefuses(raw, v, other);
    } else {
      ScalarsAlike(raw, v, w, other);
    }
  }

  lemma StringTouches(raw: Json, c: string, other: Meaning)
    requires Branch(raw, other) && Valid(raw, JString(c), other)
    ensures TakesStrings(raw)
  {
    if IsNullSchema(raw) {
      NullRefuses(raw, JString(c), other);
    } else {
      StringsShow(raw, c, other);
    }
  }

  lemma {:induction false} TouchesFound(g: Guide, raw: Json, v: Json, other: Meaning)
    requires Branch(raw, other) && Accepts(g, v) && Valid(raw, v, other)
    ensures Touches(g, raw, other)
    decreases g
  {
    match g
    case GString => StringTouches(raw, v.s, other);
    case GInt => ScalarTouches(raw, v, JInt(0), other);
    case GDouble => ScalarTouches(raw, v, JInt(0), other);
    case GBool => ScalarTouches(raw, v, JBool(true), other);
    case GNull =>
    case GChoices(choices) =>
    case GAnyOf(options) =>
      var i :| 0 <= i < |options| && Accepts(options[i], v);
      TouchesFound(options[i], raw, v, other);
    case GObject(_) =>
    case GArray(_, _, _) =>
  }

  lemma {:induction false} TouchesMeant(g: Guide, raw: Json, other: Meaning) returns (v: Json)
    requires Branch(raw, other) && Touches(g, raw, other)
    ensures Accepts(g, v) && Valid(raw, v, other)
    decreases g
  {
    match g
    case GString =>
      var c := StringsTaken(raw, other);
      v := JString(c);
    case GInt => v := JInt(0);
    case GDouble => v := JInt(0);
    case GBool => v := JBool(true);
    case GNull => v := JNull;
    case GChoices(choices) =>
      var i :| 0 <= i < |choices| && Valid(raw, JString(choices[i]), other);
      v := JString(choices[i]);
    case GAnyOf(options) =>
      var i :| 0 <= i < |options| && Touches(options[i], raw, other);
      v := TouchesMeant(options[i], raw, other);
    case GObject(_) => v :| Accepts(g, v) && Valid(raw, v, other);
    case GArray(_, _, _) => v :| Accepts(g, v) && Valid(raw, v, other);
  }

  // ------------------------------------------------------------------------ the condition

  /** What branch i is compiled to has a value in common with branch j. */
  ghost predicate Overlap(ss: seq<Json>, i: nat, j: nat, other: Meaning)
    requires i < |ss| && j < |ss|
  {
    i != j && !IsNullSchema(ss[i]) && Translate(ss[i]).Ok? && Touches(Translate(ss[i]).value, ss[j], other)
  }

  /** oneOf is sound when no compiled branch has a value in common with another branch,
      which for strings, numbers, truth values and null is read off the two. */
  lemma OneOfIff(s: Schema, ss: seq<Json>, g: Guide, other: Meaning)
    requires NoSiblings(s) && ArrayOf(s.anyOf).None?
    requires s.oneOf == Some(JArray(ss)) && NonNull(ss) != []
    requires forall i | 0 <= i < |NonNull(ss)| :: InFragment(NonNull(ss)[i], other)
    requires TranslateSchema(s) == Ok(g)
    ensures SoundFor(s, other) <==> forall i, j | 0 <= i < |ss| && 0 <= j < |ss| :: !Overlap(ss, i, j, other)
  {
    OneOfTwice(s, ss, g, other);
    BranchesAre(s, ss, g, other);
    if i: nat, j: nat :| i < |ss| && j < |ss| && Overlap(ss, i, j, other) {
      OverlapIsTwo(s, ss, g, i, j, other);
    }
    if v :| Accepts(g, v) && TwoValid(ss, v, other) {
      TwoIsOverlap(s, ss, g, v, other);
    }
  }

  lemma BranchesAre(s: Schema, ss: seq<Json>, g: Guide, other: Meaning)
    requires ArrayOf(s.choices).None? && Alternatives(s) == Some(ss) && TranslateSchema(s) == Ok(g)
    requires forall i | 0 <= i < |NonNull(ss)| :: InFragment(NonNull(ss)[i], other)
    ensures forall i | 0 <= i < |ss| :: Branch(ss[i], other)
  {
    forall i | 0 <= i < |ss| && !IsNullSchema(ss[i])
      ensures Branch(ss[i], other)
    {
      var k := NonNullIndex(ss, i);
      BranchGuide(s, ss, g, k);
    }
  }

  lemma OverlapIsTwo(s: Schema, ss: seq<Json>, g: Guide, i: nat, j: nat, other: Meaning)
    requires ArrayOf(s.choices).None? && Alternatives(s) == Some(ss) && TranslateSchema(s) == Ok(g)
    requires forall k | 0 <= k < |ss| :: Branch(ss[k], other)
    requires i < |ss| && j < |ss| && Overlap(ss, i, j, other)
    ensures exists v :: Accepts(g, v) && TwoValid(ss, v, other)
  {
    var h := Translate(ss[i]).value;
    var v := TouchesMeant(h, ss[j], other);
    var k := NonNullIndex(ss, i);
    BranchGuide(s, ss, g, k);
    Sound(ss[i], h, v, other);
    assert TwoValid(ss, v, other) by {
      if i < j {
        assert Valid(ss[i], v, other) && Valid(ss[j], v, other);
      } else {
        assert Valid(ss[j], v, other) && Valid(ss[i], v, other);
      }
    }
  }

  lemma TwoIsOverlap(s: Schema, ss: seq<Json>, g: Guide, v: Json, other: Meaning)
    requires ArrayOf(s.choices).None? && Alternatives(s) == Some(ss) && TranslateSchema(s) == Ok(g)
    requires forall k | 0 <= k < |ss| :: Branch(ss[k], other)
    requires NonNull(ss) != [] && Accepts(g, v) && TwoValid(ss, v, other)
    ensures exists i, j | 0 <= i < |ss| && 0 <= j < |ss| :: Overlap(ss, i, j, other)
  {
    var k := SomeBranchGuide(s, ss, g, v);
    NoNullLeft(ss);
    var i := NonNullMember(ss, k);
    var a, b :| 0 <= a < b < |ss| && Valid(ss[a], v, other) && Valid(ss[b], v, other);
    var j := if a == i then b else a;
    TouchesFound(Translate(ss[i]).value, ss[j], v, other);
    assert Overlap(ss, i, j, other);
  }
}
