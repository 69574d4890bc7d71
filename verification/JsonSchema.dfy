/** The compiler of `panops-llm-mac/Codecs.swift` from JSON Schema to a
    guided-generation schema. JSON objects are sequences of members; the keywords that
    the compiler looks at are read out of them once, and what is read out weighs less
    than the object, which is the measure on which the recursion terminates, through
    nullable stripping and the narrowing of type arrays as well. Beside the compiler
    stand the two meanings that are compared later: which values a schema of the
    2020-12 draft accepts, and which values the target type admits. */
module JsonSchema {
  import opened Options

  datatype Field = Field(key: string, value: Json)

  /** An object keeps its members as key-value pairs; a lookup takes the first. */
  datatype Json =
    | JObject(fields: seq<Field>)
    | JArray(items: seq<Json>)
    | JString(s: string)
    | JInt(i: int)
    | JDouble(r: real)
    | JBool(b: bool)
    | JNull

  // ------------------------------------------------------------------- measure

  function Size(j: Json): (n: nat)
    ensures n >= 1
    decreases j
  {
    match j
    case JObject(fields) => 1 + FieldsSize(fields)
    case JArray(items) => 1 + ItemsSize(items)
    case _ => 1
  }

  function FieldsSize(fs: seq<Field>): (n: nat)
    ensures forall i | 0 <= i < |fs| :: Size(fs[i].value) < n
    decreases fs
  {
    if fs == [] then 0 else
    assert forall i | 0 < i < |fs| :: fs[i] == fs[1..][i - 1];
    1 + Size(fs[0].value) + FieldsSize(fs[1..])
  }

  function ItemsSize(xs: seq<Json>): (n: nat)
    ensures forall i | 0 <= i < |xs| :: Size(xs[i]) < n
    ensures n >= 2 * |xs|
    decreases xs
  {
    if xs == [] then 0 else
    assert forall i | 0 < i < |xs| :: xs[i] == xs[1..][i - 1];
    1 + Size(xs[0]) + ItemsSize(xs[1..])
  }

  function OptionSize(j: Option<Json>): (n: nat)
  {
    if j.Some? then Size(j.value) else 0
  }

  // ------------------------------------------------------------------- keywords

  function Lookup(fs: seq<Field>, key: string): (r: Option<Json>)
  {
    if fs == [] then None
    else if fs[0].key == key then Some(fs[0].value)
    else Lookup(fs[1..], key)
  }

  predicate Has(fs: seq<Field>, key: string)
  {
    Lookup(fs, key).Some?
  }

  /** The members of a schema object that the compiler looks at. */
  datatype Schema = Schema(
    ty: Option<Json>, choices: Option<Json>, anyOf: Option<Json>, oneOf: Option<Json>,
    properties: Option<Json>, required: Option<Json>, items: Option<Json>,
    minItems: Option<Json>, maxItems: Option<Json>)

  function Weight(s: Schema): (n: nat)
  {
    OptionSize(s.ty) + OptionSize(s.choices) + OptionSize(s.anyOf) + OptionSize(s.oneOf)
    + OptionSize(s.properties) + OptionSize(s.required) + OptionSize(s.items)
    + OptionSize(s.minItems) + OptionSize(s.maxItems)
  }

  function Read(fs: seq<Field>): (s: Schema)
    ensures Weight(s) <= FieldsSize(fs)
  {
    ReadWeight(fs);
    Schema(Lookup(fs, "type"), Lookup(fs, "enum"), Lookup(fs, "anyOf"), Lookup(fs, "oneOf"),
           Lookup(fs, "properties"), Lookup(fs, "required"), Lookup(fs, "items"),
           Lookup(fs, "minItems"), Lookup(fs, "maxItems"))
  }

  /** Sizes of the members that a list of keys finds. */
  function Found(fs: seq<Field>, keys: seq<string>): (n: nat)
  {
    if keys == [] then 0 else OptionSize(Lookup(fs, keys[0])) + Found(fs, keys[1..])
  }

  /** Distinct keys find distinct members, together no larger than the object. */
  lemma {:induction false} FoundWeight(fs: seq<Field>, keys: seq<string>)
    requires forall i, j | 0 <= i < j < |keys| :: keys[i] != keys[j]
    ensures Found(fs, keys) <= FieldsSize(fs)
  {
    if fs == [] {
      FoundNothing(keys);
    } else {
      FoundWeight(fs[1..], keys);
      FoundOnce(fs, keys);
    }
  }

  lemma FoundNothing(keys: seq<string>)
    ensures Found([], keys) == 0
  {
  }

  lemma {:induction false} FoundOnce(fs: seq<Field>, keys: seq<string>)
    requires fs != [] && forall i, j | 0 <= i < j < |keys| :: keys[i] != keys[j]
    ensures Found(fs, keys) <= Found(fs[1..], keys) + (if fs[0].key in keys then Size(fs[0].value) else 0)
  {
    if keys != [] {
      FoundOnce(fs, keys[1..]);
      assert keys == [keys[0]] + keys[1..];
    }
  }

  lemma FoundTail(fs: seq<Field>)
    ensures Found(fs, ["required", "items", "minItems", "maxItems"])
         == OptionSize(Lookup(fs, "required")) + OptionSize(Lookup(fs, "items"))
          + OptionSize(Lookup(fs, "minItems")) + OptionSize(Lookup(fs, "maxItems"))
  {
    FoundMore(fs, "maxItems", []);
    FoundMore(fs, "minItems", ["maxItems"]);
    FoundMore(fs, "items", ["minItems", "maxItems"]);
    FoundMore(fs, "required", ["items", "minItems", "maxItems"]);
    assert ["maxItems"] + [] == ["maxItems"] && ["minItems"] + ["maxItems"] == ["minItems", "maxItems"];
    assert ["items"] + ["minItems", "maxItems"] == ["items", "minItems", "maxItems"];
    assert ["required"] + ["items", "minItems", "maxItems"] == ["required", "items", "minItems", "maxItems"];
  }

  lemma FoundMore(fs: seq<Field>, key: string, keys: seq<string>)
    ensures Found(fs, [key] + keys) == OptionSize(Lookup(fs, key)) + Found(fs, keys)
  {
    assert ([key] + keys)[1..] == keys;
  }

  lemma ReadWeight(fs: seq<Field>)
    ensures OptionSize(Lookup(fs, "type")) + OptionSize(Lookup(fs, "enum")) + OptionSize(Lookup(fs, "anyOf"))
          + OptionSize(Lookup(fs, "oneOf")) + OptionSize(Lookup(fs, "properties")) + OptionSize(Lookup(fs, "required"))
          + OptionSize(Lookup(fs, "items")) + OptionSize(Lookup(fs, "minItems")) + OptionSize(Lookup(fs, "maxItems"))
          <= FieldsSize(fs)
  {
    var keys := ["type", "enum", "anyOf", "oneOf", "properties", "required", "items", "minItems", "maxItems"];
    KeysDiffer(keys);
    FoundWeight(fs, keys);
    assert keys[5..] == ["required", "items", "minItems", "maxItems"];
    FoundTail(fs);
    assert Found(fs, keys[4..]) == OptionSize(Lookup(fs, keys[4])) + Found(fs, keys[5..]);
    assert Found(fs, keys[3..]) == OptionSize(Lookup(fs, keys[3])) + Found(fs, keys[4..]);
    assert Found(fs, keys[2..]) == OptionSize(Lookup(fs, keys[2])) + Found(fs, keys[3..]);
    assert Found(fs, keys[1..]) == OptionSize(Lookup(fs, keys[1])) + Found(fs, keys[2..]);
  }

  lemma KeysDiffer(keys: seq<string>)
    requires keys == ["type", "enum", "anyOf", "oneOf", "properties", "required", "items", "minItems", "maxItems"]
    ensures forall i, j | 0 <= i < j < |keys| :: keys[i] != keys[j]
  {
    assert "minItems"[1] == 'i' && "maxItems"[1] == 'a';
    assert forall i, j | 0 <= i < j < 9 :: keys[i][0] != keys[j][0] || keys[i][1] != keys[j][1];
  }

  // ------------------------------------------------------------ the target type

  datatype Property = Property(name: string, guide: Guide, optional: bool)

  /** Apple's dynamic generation schema, without names and descriptions. */
  datatype Guide =
    | GString | GInt | GDouble | GBool | GNull
    | GChoices(choices: seq<string>)
    | GAnyOf(options: seq<Guide>)
    | GObject(properties: seq<Property>)
    | GArray(element: Guide, min: Option<int>, max: Option<int>)

  /** The values a guide lets the model produce. */
  predicate Accepts(g: Guide, v: Json)
    decreases g
  {
    match g
    case GString => v.JString?
    case GInt => v.JInt?
    case GDouble => v.JInt? || v.JDouble?
    case GBool => v.JBool?
    case GNull => v.JNull?
    case GChoices(choices) => v.JString? && v.s in choices
    case GAnyOf(options) => exists i | 0 <= i < |options| :: Accepts(options[i], v)
    case GObject(properties) =>
      && v.JObject?
      && (forall f | f in v.fields :: exists i | 0 <= i < |properties| :: properties[i].name == f.key)
      && (forall i | 0 <= i < |properties| :: AcceptsMember(properties[i], Lookup(v.fields, properties[i].name)))
    case GArray(element, min, max) =>
      && v.JArray?
      && (min.Some? ==> |v.items| >= min.value)
      && (max.Some? ==> |v.items| <= max.value)
      && (forall i | 0 <= i < |v.items| :: Accepts(element, v.items[i]))
  }

  predicate AcceptsMember(p: Property, x: Option<Json>)
    decreases p
  {
    if x.None? then p.optional else Accepts(p.guide, x.value)
  }

  // ------------------------------------------------- JSON Schema, draft 2020-12

  predicate IsWhole(r: real)
  {
    r == r.Floor as real
  }

  predicate HasType(v: Json, t: string)
  {
    || (t == "null" && v.JNull?)
    || (t == "boolean" && v.JBool?)
    || (t == "string" && v.JString?)
    || (t == "object" && v.JObject?)
    || (t == "array" && v.JArray?)
    || (t == "number" && (v.JInt? || v.JDouble?))
    || (t == "integer" && (v.JInt? || (v.JDouble? && IsWhole(v.r))))
  }

  /** Validation, section 6.1.1. */
  predicate TypeOk(ty: Option<Json>, v: Json)
  {
    match ty
    case None => true
    case Some(JString(t)) => HasType(v, t)
    case Some(JArray(ts)) => exists i | 0 <= i < |ts| :: ts[i].JString? && HasType(v, ts[i].s)
    case Some(_) => false
  }

  predicate IsNumber(j: Json)
  {
    j.JInt? || j.JDouble?
  }

  function Number(j: Json): (r: real)
    requires IsNumber(j)
  {
    if j.JInt? then j.i as real else j.r
  }

  /** Member i is the first of its key, the one that a lookup takes. */
  predicate First(fs: seq<Field>, i: nat)
    requires i < |fs|
  {
    forall k | 0 <= k < i :: fs[k].key != fs[i].key
  }

  /** Equality of JSON values (Core, section 4.2.2): numbers by value, objects by key. */
  predicate Same(a: Json, b: Json)
    decreases a
  {
    match a
    case JObject(fs) =>
      && b.JObject?
      && (forall i | 0 <= i < |b.fields| :: Has(fs, b.fields[i].key))
      && (forall i | 0 <= i < |fs| && First(fs, i) ::
            Has(b.fields, fs[i].key) && Same(fs[i].value, Lookup(b.fields, fs[i].key).value))
    case JArray(xs) => b.JArray? && |b.items| == |xs| && forall i | 0 <= i < |xs| :: Same(xs[i], b.items[i])
    case JInt(_) => IsNumber(b) && Number(a) == Number(b)
    case JDouble(_) => IsNumber(b) && Number(a) == Number(b)
    case JString(_) => a == b
    case JBool(_) => a == b
    case JNull => a == b
  }

  /** Validation, section 6.1.2. */
  predicate EnumOk(choices: Option<Json>, v: Json)
  {
    match choices
    case None => true
    case Some(JArray(vs)) => exists i | 0 <= i < |vs| :: Same(v, vs[i])
    case Some(_) => false
  }

  predicate AtLeast(n: int, bound: Option<Json>)
  {
    match bound
    case Some(JInt(i)) => n >= i
    case Some(JDouble(r)) => n as real >= r
    case _ => true
  }

  predicate AtMost(n: int, bound: Option<Json>)
  {
    match bound
    case Some(JInt(i)) => n <= i
    case Some(JDouble(r)) => n as real <= r
    case _ => true
  }

  /** Validation, section 6.5.3. */
  predicate RequiredOk(required: Option<Json>, v: Json)
  {
    match required
    case Some(JArray(rs)) =>
      v.JObject? ==> forall i | 0 <= i < |rs| && rs[i].JString? :: Has(v.fields, rs[i].s)
    case _ => true
  }

  /** Core, sections 10.2 and 10.3. */
  predicate AnyOfOk(alternatives: Option<Json>, v: Json, other: Meaning)
    decreases OptionSize(alternatives), 2
  {
    match alternatives
    case Some(JArray(ss)) => exists i | 0 <= i < |ss| :: Valid(ss[i], v, other)
    case _ => true
  }

  predicate OneOfOk(alternatives: Option<Json>, v: Json, other: Meaning)
    decreases OptionSize(alternatives), 2
  {
    match alternatives
    case Some(JArray(ss)) =>
      exists i | 0 <= i < |ss| ::
        Valid(ss[i], v, other) && forall j | 0 <= j < |ss| && j != i :: !Valid(ss[j], v, other)
    case _ => true
  }

  predicate PropertiesOk(properties: Option<Json>, v: Json, other: Meaning)
    decreases OptionSize(properties), 2
  {
    match properties
    case Some(JObject(ps)) =>
      v.JObject? ==> forall i | 0 <= i < |ps| && Has(v.fields, ps[i].key) ::
        Valid(ps[i].value, Lookup(v.fields, ps[i].key).value, other)
    case _ => true
  }

  predicate ItemsOk(items: Option<Json>, v: Json, other: Meaning)
    decreases OptionSize(items), 2
  {
    items.Some? && v.JArray? ==> forall i | 0 <= i < |v.items| :: Valid(items.value, v.items[i], other)
  }

  /** The keywords that the compiler looks at. */
  predicate ValidAll(s: Schema, v: Json, other: Meaning)
    decreases Weight(s) + 1, 0
  {
    && TypeOk(s.ty, v) && EnumOk(s.choices, v) && AnyOfOk(s.anyOf, v, other) && OneOfOk(s.oneOf, v, other)
    && PropertiesOk(s.properties, v, other) && RequiredOk(s.required, v) && ItemsOk(s.items, v, other)
    && (v.JArray? ==> AtLeast(|v.items|, s.minItems) && AtMost(|v.items|, s.maxItems))
  }

  /** The other keywords of the 2020-12 vocabularies that may refuse a value. Every
      other key is an annotation or unknown, which constrains nothing (Core, 6.5). */
  predicate Unread(key: string)
  {
    || key == "minimum" || key == "maximum" || key == "exclusiveMinimum" || key == "exclusiveMaximum"
    || key == "multipleOf" || key == "minLength" || key == "maxLength" || key == "pattern" || key == "format"
    || key == "const" || key == "allOf" || key == "not" || key == "if" || key == "then" || key == "else"
    || key == "prefixItems" || key == "contains" || key == "minContains" || key == "maxContains"
    || key == "uniqueItems" || key == "unevaluatedItems" || key == "unevaluatedProperties"
    || key == "additionalProperties" || key == "patternProperties" || key == "propertyNames"
    || key == "minProperties" || key == "maxProperties" || key == "dependentRequired"
    || key == "dependentSchemas" || key == "$ref" || key == "$dynamicRef"
  }

  /** What an unread keyword asks of a value, beside its sibling keywords. */
  type Meaning = (seq<Field>, Field, Json) -> bool

  /** The properties keyword names the key. */
  predicate Declares(s: Schema, key: string)
  {
    s.properties.Some? && s.properties.value.JObject? && Has(s.properties.value.fields, key)
  }

  /** Eleven of the unread keywords have their meaning here; the others have any. */
  predicate UnreadOk(fs: seq<Field>, f: Field, v: Json, other: Meaning)
    decreases Size(f.value), 2
  {
    var numbers := IsNumber(f.value) && IsNumber(v);
    if f.key == "minimum" then numbers ==> Number(v) >= Number(f.value)
    else if f.key == "maximum" then numbers ==> Number(v) <= Number(f.value)
    else if f.key == "exclusiveMinimum" then numbers ==> Number(v) > Number(f.value)
    else if f.key == "exclusiveMaximum" then numbers ==> Number(v) < Number(f.value)
    else if f.key == "minLength" then v.JString? ==> AtLeast(|v.s|, Some(f.value))
    else if f.key == "maxLength" then v.JString? ==> AtMost(|v.s|, Some(f.value))
    else if f.key == "const" then Same(v, f.value)
    else if f.key == "uniqueItems" then f.value == JBool(true) && v.JArray? ==> AllDifferent(v.items)
    else if f.key == "allOf" then
      f.value.JArray? ==> forall i | 0 <= i < |f.value.items| :: Valid(f.value.items[i], v, other)
    else if f.key == "not" then !Valid(f.value, v, other)
    else if f.key == "additionalProperties" && !Has(fs, "patternProperties") then
      v.JObject? ==> forall i | 0 <= i < |v.fields| && !Declares(Read(fs), v.fields[i].key) ::
        Valid(f.value, v.fields[i].value, other)
    else Unread(f.key) ==> other(fs, f, v)
  }

  predicate AllDifferent(xs: seq<Json>)
  {
    forall i, j | 0 <= i < j < |xs| :: !Same(xs[i], xs[j])
  }

  /** Does `v` validate against the schema? */
  predicate Valid(schema: Json, v: Json, other: Meaning)
    decreases Size(schema), 1
  {
    match schema
    case JBool(b) => b
    case JObject(fs) => ValidAll(Read(fs), v, other) && forall i | 0 <= i < |fs| :: UnreadOk(fs, fs[i], v, other)
    case _ => false
  }

  // --------------------------------------------------------------- the compiler

  datatype Result<+T> = Ok(value: T) | Invalid | Unsupported

  const NULL_TYPE: Json := JString("null")

  /** `isNullSchema`. */
  predicate IsNullSchema(j: Json)
  {
    if j.JObject? then Read(j.fields).ty == Some(NULL_TYPE) else j == JNull
  }

  function NonNull(ss: seq<Json>): (r: seq<Json>)
    ensures ItemsSize(r) <= ItemsSize(ss)
  {
    if ss == [] then [] else
    var rest := NonNull(ss[1..]);
    if IsNullSchema(ss[0]) then rest
    else
      assert ([ss[0]] + rest)[1..] == rest;
      [ss[0]] + rest
  }

  /** The filter of `stripNullable` on a type array. */
  function NonNullTypes(ts: seq<Json>): (r: seq<Json>)
    ensures ItemsSize(r) <= ItemsSize(ts)
  {
    if ts == [] then [] else
    var rest := NonNullTypes(ts[1..]);
    if ts[0] == NULL_TYPE then rest
    else
      assert ([ts[0]] + rest)[1..] == rest;
      [ts[0]] + rest
  }

  function StripType(ty: Option<Json>): (r: Option<Json>)
    ensures OptionSize(r) <= OptionSize(ty)
  {
    match ty
    case Some(JArray(ts)) =>
      var rest := NonNullTypes(ts);
      if |rest| == 1 && rest[0].JString? then Some(rest[0]) else Some(JArray(rest))
    case _ => ty
  }

  function StripAlternatives(alternatives: Option<Json>): (r: Option<Json>)
    ensures OptionSize(r) <= OptionSize(alternatives)
  {
    match alternatives
    case Some(JArray(ss)) => Some(JArray(NonNull(ss)))
    case _ => alternatives
  }

  /** `stripNullable` on an object; other values pass through it unchanged. */
  function StripNullable(s: Schema): (r: Schema)
    ensures Weight(r) <= Weight(s)
  {
    s.(ty := StripType(s.ty), anyOf := StripAlternatives(s.anyOf), oneOf := StripAlternatives(s.oneOf))
  }

  /** The strings among `xs`, in order. */
  function Strings(xs: seq<Json>): (r: seq<string>)
    ensures |r| <= |xs|
  {
    if xs == [] then []
    else if xs[0].JString? then [xs[0].s] + Strings(xs[1..])
    else Strings(xs[1..])
  }

  /** `typeNames`. */
  function TypeNames(s: Schema): (r: Result<seq<string>>)
  {
    match s.ty
    case None =>
      if s.properties.Some? then Ok(["object"])
      else if s.items.Some? then Ok(["array"])
      else if s.choices.Some? then Ok(["string"])
      else Invalid
    case Some(JString(t)) => Ok([t])
    case Some(JArray(ts)) => if |Strings(ts)| == |ts| then Ok(Strings(ts)) else Invalid
    case Some(_) => Invalid
  }

  function WithoutNull(names: seq<string>): (r: seq<string>)
    ensures |r| <= |names|
  {
    if names == [] then []
    else if names[0] == "null" then WithoutNull(names[1..])
    else [names[0]] + WithoutNull(names[1..])
  }

  /** `intValue`: Swift's `Int(d)` truncates toward zero. */
  function IntValue(j: Option<Json>): (r: Option<int>)
  {
    match j
    case Some(JInt(i)) => Some(i)
    case Some(JDouble(r)) => Some(if r >= 0.0 then r.Floor else -((-r).Floor))
    case _ => None
  }

  function ArrayOf(j: Option<Json>): (r: Option<seq<Json>>)
    ensures r.Some? ==> ItemsSize(r.value) < OptionSize(j)
  {
    match j
    case Some(JArray(xs)) => Some(xs)
    case _ => None
  }

  /** `schema["anyOf"]?.arrayValue ?? schema["oneOf"]?.arrayValue`. */
  function Alternatives(s: Schema): (r: Option<seq<Json>>)
    ensures r.Some? ==> ItemsSize(r.value) < Weight(s)
  {
    if ArrayOf(s.anyOf).Some? then ArrayOf(s.anyOf) else ArrayOf(s.oneOf)
  }

  function RequiredNames(s: Schema): (r: seq<string>)
  {
    if ArrayOf(s.required).Some? then Strings(ArrayOf(s.required).value) else []
  }

  function PropertySchemas(s: Schema): (r: seq<Field>)
    ensures FieldsSize(r) <= OptionSize(s.properties)
  {
    match s.properties
    case Some(JObject(ps)) => ps
    case _ => []
  }

  /** Fixing one name of a type array: the step that is not structural. */
  function Narrow(s: Schema, t: string): (r: Schema)
    ensures s.ty.Some? && s.ty.value.JArray? && |s.ty.value.items| > 0 ==> Weight(r) < Weight(s)
    ensures Weight(r) == Weight(s) - OptionSize(s.ty) + 1
  {
    s.(ty := Some(JString(t)))
  }

  function Wrap<T, U>(r: Result<T>, f: T -> U): (w: Result<U>)
  {
    match r
    case Ok(x) => Ok(f(x))
    case Invalid => Invalid
    case Unsupported => Unsupported
  }

  /** `dynamicGenerationSchema`, on a system that has the null schema. It
      terminates on every JSON value. */
  function Translate(raw: Json): (r: Result<Guide>)
    decreases Size(raw), 1
  {
    if raw.JObject? then TranslateSchema(Read(raw.fields)) else Invalid
  }

  /** `dynamicGenerationSchema(from: stripNullable(raw))`. */
  function TranslateStripped(raw: Json): (r: Result<Guide>)
    decreases Size(raw), 1
  {
    if raw.JObject? then TranslateSchema(StripNullable(Read(raw.fields))) else Invalid
  }

  function TranslateSchema(s: Schema): (r: Result<Guide>)
    decreases Weight(s) + 1, 0
  {
    if ArrayOf(s.choices).Some? then TranslateEnum(ArrayOf(s.choices).value)
    else if Alternatives(s).Some? then
      var nonNull := NonNull(Alternatives(s).value);
      if nonNull == [] then Ok(GNull)
      else if |nonNull| == 1 then Translate(nonNull[0])
      else Wrap(TranslateAll(nonNull), options => GAnyOf(options))
    else
      match TypeNames(s)
      case Invalid => Invalid
      case Unsupported => Unsupported
      case Ok(names) =>
        var nonNull := WithoutNull(names);
        if nonNull == [] then Ok(GNull)
        else if |nonNull| > 1 then
          assert s.ty.value.JArray? && |s.ty.value.items| > 0;
          Wrap(TranslateNarrowed(s, nonNull), options => GAnyOf(options))
        else TranslateType(s, nonNull[0])
  }

  function TranslateEnum(vs: seq<Json>): (r: Result<Guide>)
  {
    if |Strings(vs)| != |vs| then Unsupported
    else if vs == [] then Invalid
    else Ok(GChoices(Strings(vs)))
  }

  /** The final switch on the one type name. */
  function TranslateType(s: Schema, t: string): (r: Result<Guide>)
    decreases Weight(s), 2
  {
    if t == "object" then
      Wrap(TranslateProperties(PropertySchemas(s), RequiredNames(s)), ps => GObject(ps))
    else if t == "array" then
      if s.items.None? then Invalid else
      var min, max := IntValue(s.minItems), IntValue(s.maxItems);
      Wrap(TranslateStripped(s.items.value), g => GArray(g, min, max))
    else if t == "string" then Ok(GString)
    else if t == "integer" then Ok(GInt)
    else if t == "number" then Ok(GDouble)
    else if t == "boolean" then Ok(GBool)
    else Unsupported
  }

  function TranslateAll(ss: seq<Json>): (r: Result<seq<Guide>>)
    decreases ItemsSize(ss), 0
  {
    if ss == [] then Ok([]) else
    match Translate(ss[0])
    case Invalid => Invalid
    case Unsupported => Unsupported
    case Ok(g) => Wrap(TranslateAll(ss[1..]), gs => [g] + gs)
  }

  function TranslateNarrowed(s: Schema, names: seq<string>): (r: Result<seq<Guide>>)
    requires s.ty.Some? && s.ty.value.JArray? && |s.ty.value.items| > 0
    decreases Weight(s), 3 + |names|
  {
    if names == [] then Ok([]) else
    match TranslateSchema(Narrow(s, names[0]))
    case Invalid => Invalid
    case Unsupported => Unsupported
    case Ok(g) => Wrap(TranslateNarrowed(s, names[1..]), gs => [g] + gs)
  }

  function TranslateProperties(ps: seq<Field>, required: seq<string>): (r: Result<seq<Property>>)
    decreases FieldsSize(ps), 0
  {
    if ps == [] then Ok([]) else
    match TranslateStripped(ps[0].value)
    case Invalid => Invalid
    case Unsupported => Unsupported
    case Ok(g) =>
      var p := Property(ps[0].key, g, ps[0].key !in required);
      Wrap(TranslateProperties(ps[1..], required), rest => [p] + rest)
  }
}
