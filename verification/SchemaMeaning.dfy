/** What a schema accepts, following JSON Schema Validation 2020-12, and what absorbing a type list into an enum
    does to it. Keywords outside structured outputs have no meaning here, except the dropped bounds and not. */
module SchemaMeaning {
  import opened Wrappers
  import opened NumberText
  import opened SchemaStrip

  /** Every number text is a JSON number of fewer than 2^40 characters. */
  ghost predicate WellFormed(v: Json) {
    match v
    case Num(text) => JsonNumber(text) && |text| < EXPONENT_BOUND
    case Arr(items) => forall i :: 0 <= i < |items| ==> WellFormed(items[i])
    case Obj(m) => forall key :: key in m ==> WellFormed(m[key])
    case _ => true
  }

  /** The rational a number text denotes. */
  ghost function Denoted(text: string): real {
    if JsonNumber(text) then (var p: Parts :| p.Valid() && p.Render() == text; p.Denotes()) else 0.0
  }

  /** Equal JSON values: numbers are compared by what they denote. */
  ghost predicate Equal(a: Json, b: Json) {
    match a
    case Num(text) => b.Num? && Denoted(text) == Denoted(b.text)
    case Arr(items) => b.Arr? && |items| == |b.items| && forall i :: 0 <= i < |items| ==> Equal(items[i], b.items[i])
    case Obj(m) => b.Obj? && m.Keys == b.fields.Keys && forall key :: key in m ==> Equal(m[key], b.fields[key])
    case _ => a == b
  }

  lemma {:induction false} EqualIsReflexive(a: Json)
    ensures Equal(a, a)
  {
    match a
    case Arr(items) => forall i | 0 <= i < |items| { EqualIsReflexive(items[i]); }
    case Obj(m) => forall key | key in m { EqualIsReflexive(m[key]); }
    case _ =>
  }

  ghost predicate TypeMatches(name: Json, v: Json) {
    name.Str? &&
    match name.chars
    case "null" => v.Null?
    case "string" => v.Str?
    case "boolean" => v.Bool?
    case "number" => v.Num?
    case "integer" => v.Num? && IsInteger(Denoted(v.text))
    case "array" => v.Arr?
    case "object" => v.Obj?
    case _ => false
  }

  ghost predicate ListMatches(types: seq<Json>, v: Json) { exists i :: 0 <= i < |types| && TypeMatches(types[i], v) }

  ghost predicate Among(values: seq<Json>, v: Json) { exists i :: 0 <= i < |values| && Equal(v, values[i]) }

  // ----- absorbing a type list -----

  /** The list names object or array beside an enum value of that type. */
  predicate NamesComposite(types: seq<Json>, values: seq<Json>) {
    exists i, j :: 0 <= i < |types| && 0 <= j < |values| &&
      ((types[i] == Str("object") && values[j].Obj?) || (types[i] == Str("array") && values[j].Arr?))
  }

  lemma IntegerText(text: string)
    requires JsonNumber(text) && |text| < EXPONENT_BOUND
    ensures TextIsInteger(text) <==> IsInteger(Denoted(text))
  {
    var p: Parts :| p.Valid() && p.Render() == text && Denoted(text) == p.Denotes();
    assert |p.whole| <= |text| && |p.fraction| <= |text|;
    TextDecidesInteger(p);
  }

  /** The code's test of an enum value agrees with the type of every equal instance, except for composites. */
  lemma AllowsIsMatches(name: Json, v: Json, value: Json)
    requires WellFormed(v) && WellFormed(value) && Equal(v, value)
    ensures TypeAllows(name, value) ==> TypeMatches(name, v)
    ensures TypeMatches(name, v) && !(name == Str("object") && value.Obj?) && !(name == Str("array") && value.Arr?) ==> TypeAllows(name, value)
  {
    if name == Str("integer") && value.Num? { IntegerText(value.text); }
  }

  lemma {:induction false} AllowedMembers(types: seq<Json>, values: seq<Json>, v: Json)
    ensures v in Allowed(types, values) <==> v in values && ListAllows(types, v)
  {
    if values != [] {
      var n := |values| - 1;
      AllowedMembers(types, values[..n], v);
      assert values == values[..n] + [values[n]];
    }
  }

  lemma AmongAllowed(types: seq<Json>, values: seq<Json>, v: Json)
    requires WellFormed(v) && forall i :: 0 <= i < |values| ==> WellFormed(values[i])
    ensures Among(Allowed(types, values), v) ==> ListMatches(types, v) && Among(values, v)
    ensures !NamesComposite(types, values) && ListMatches(types, v) && Among(values, v) ==> Among(Allowed(types, values), v)
  {
    if Among(Allowed(types, values), v) { AllowedIsAmong(types, values, v); }
    if !NamesComposite(types, values) && ListMatches(types, v) && Among(values, v) { AmongIsAllowed(types, values, v); }
  }

  lemma AllowedIsAmong(types: seq<Json>, values: seq<Json>, v: Json)
    requires WellFormed(v) && forall i :: 0 <= i < |values| ==> WellFormed(values[i])
    requires Among(Allowed(types, values), v)
    ensures ListMatches(types, v) && Among(values, v)
  {
    var kept := Allowed(types, values);
    var i :| 0 <= i < |kept| && Equal(v, kept[i]);
    AllowedMembers(types, values, kept[i]);
    var j :| 0 <= j < |values| && values[j] == kept[i];
    var k :| 0 <= k < |types| && TypeAllows(types[k], values[j]);
    AllowsIsMatches(types[k], v, values[j]);
  }

  lemma AmongIsAllowed(types: seq<Json>, values: seq<Json>, v: Json)
    requires WellFormed(v) && forall i :: 0 <= i < |values| ==> WellFormed(values[i])
    requires !NamesComposite(types, values) && ListMatches(types, v) && Among(values, v)
    ensures Among(Allowed(types, values), v)
  {
    var kept := Allowed(types, values);
    var j :| 0 <= j < |values| && Equal(v, values[j]);
    var k :| 0 <= k < |types| && TypeMatches(types[k], v);
    AllowsIsMatches(types[k], v, values[j]);
    AllowedMembers(types, values, values[j]);
    var i :| 0 <= i < |kept| && kept[i] == values[j];
  }

  /** The documentation says the accepted values stay the same. They do, for every instance, exactly when the
      list does not name object or array beside an enum value of that type. */
  lemma AbsorbingKeepsMeaning(types: seq<Json>, values: seq<Json>)
    requires forall i :: 0 <= i < |values| ==> WellFormed(values[i])
    ensures (forall v :: WellFormed(v) ==> (ListMatches(types, v) && Among(values, v) <==> Among(Allowed(types, values), v)))
            <==> !NamesComposite(types, values)
  {
    forall v | WellFormed(v) ensures !NamesComposite(types, values) ==> (ListMatches(types, v) && Among(values, v) <==> Among(Allowed(types, values), v)) {
      AmongAllowed(types, values, v);
    }
    if NamesComposite(types, values) { CompositeIsLost(types, values); }
  }

  /** An object or array the list names is accepted before and refused after. */
  lemma CompositeIsLost(types: seq<Json>, values: seq<Json>)
    requires NamesComposite(types, values) && forall i :: 0 <= i < |values| ==> WellFormed(values[i])
    ensures exists v :: WellFormed(v) && ListMatches(types, v) && Among(values, v) && !Among(Allowed(types, values), v)
  {
    var i, j :| 0 <= i < |types| && 0 <= j < |values| &&
      ((types[i] == Str("object") && values[j].Obj?) || (types[i] == Str("array") && values[j].Arr?));
    var v, kept := values[j], Allowed(types, values);
    EqualIsReflexive(v);
    assert TypeMatches(types[i], v);
    forall k | 0 <= k < |kept| ensures !Equal(v, kept[k]) { AllowedMembers(types, values, kept[k]); }
    assert WellFormed(v) && ListMatches(types, v) && Among(values, v) && !Among(kept, v);
  }

  // ----- the meaning of a schema -----

  /** What a pattern matches and what a format accepts. */
  datatype Texts = Texts(matches: (string, string) -> bool, conforms: (string, string) -> bool)

  ghost predicate TypeOk(m: Fields, v: Json) {
    "type" in m ==>
      match m["type"]
      case Str(_) => TypeMatches(m["type"], v)
      case Arr(types) => ListMatches(types, v)
      case _ => true
  }

  ghost predicate EnumOk(m: Fields, v: Json) { "enum" in m && m["enum"].Arr? ==> Among(m["enum"].items, v) }

  ghost predicate ConstOk(m: Fields, v: Json) { "const" in m ==> Equal(v, m["const"]) }

  predicate RequiredOk(m: Fields, v: Json) {
    "required" in m && m["required"].Arr? && v.Obj? ==>
      forall i :: 0 <= i < |m["required"].items| && m["required"].items[i].Str? ==> m["required"].items[i].chars in v.fields
  }

  predicate TextOk(texts: Texts, m: Fields, v: Json) {
    v.Str? ==>
      && ("pattern" in m && m["pattern"].Str? ==> texts.matches(m["pattern"].chars, v.chars))
      && ("format" in m && m["format"].Str? ==> texts.conforms(m["format"].chars, v.chars))
  }

  /** What a numeric keyword demands, when it is a number. */
  ghost predicate Demands(m: Fields, key: string, holds: real -> bool) {
    key in m && m[key].Num? ==> holds(Denoted(m[key].text))
  }

  ghost predicate MinItemsOk(m: Fields, v: Json) { v.Arr? ==> Demands(m, "minItems", n => |v.items| as real >= n) }

  /** The bounds the rewriting drops. */
  ghost predicate BoundsOk(m: Fields, v: Json) {
    match v
    case Num(text) =>
      var x := Denoted(text);
      && Demands(m, "minimum", n => x >= n) && Demands(m, "maximum", n => x <= n)
      && Demands(m, "exclusiveMinimum", n => x > n) && Demands(m, "exclusiveMaximum", n => x < n)
      && Demands(m, "multipleOf", n => n > 0.0 ==> IsInteger(x / n))
    case Str(chars) =>
      Demands(m, "minLength", n => |chars| as real >= n) && Demands(m, "maxLength", n => |chars| as real <= n)
    case Arr(items) =>
      && Demands(m, "maxItems", n => |items| as real <= n)
      && ("uniqueItems" in m && m["uniqueItems"] == Bool(true) ==> forall i, j :: 0 <= i < j < |items| ==> !Equal(items[i], items[j]))
    case Obj(fields) =>
      && Demands(m, "minProperties", n => |fields| as real >= n) && Demands(m, "maxProperties", n => |fields| as real <= n)
    case _ => true
  }

  /** The keywords that apply no schema to a part of the instance or to the instance itself. */
  ghost predicate LocalOk(texts: Texts, m: Fields, v: Json) {
    TypeOk(m, v) && EnumOk(m, v) && ConstOk(m, v) && RequiredOk(m, v) && TextOk(texts, m, v) && MinItemsOk(m, v)
  }

  predicate Named(m: Fields, name: string) { "properties" in m && m["properties"].Obj? && name in m["properties"].fields }

  /** The instance is valid under the schema. */
  ghost predicate Valid(texts: Texts, s: Json, v: Json)
    decreases s, 1
  {
    match s
    case Bool(b) => b
    case Obj(m) =>
      && LocalOk(texts, m, v) && BoundsOk(m, v)
      && PropertiesOk(texts, s, v) && AdditionalOk(texts, s, v) && ItemsOk(texts, s, v)
      && AnyOk(texts, s, v) && AllOk(texts, s, v) && NotOk(texts, s, v)
    case _ => true
  }

  ghost predicate PropertiesOk(texts: Texts, s: Json, v: Json)
    requires s.Obj?
    decreases s, 0
  {
    v.Obj? ==> forall name :: Named(s.fields, name) && name in v.fields ==> Valid(texts, s.fields["properties"].fields[name], v.fields[name])
  }

  ghost predicate AdditionalOk(texts: Texts, s: Json, v: Json)
    requires s.Obj?
    decreases s, 0
  {
    v.Obj? && "additionalProperties" in s.fields ==>
      forall name :: name in v.fields && !Named(s.fields, name) ==> Valid(texts, s.fields["additionalProperties"], v.fields[name])
  }

  /** One schema for every item, or one schema per position. */
  ghost predicate ItemsOk(texts: Texts, s: Json, v: Json)
    requires s.Obj?
    decreases s, 0
  {
    v.Arr? && "items" in s.fields ==>
      match s.fields["items"]
      case Arr(schemas) => forall i :: 0 <= i < |v.items| && i < |schemas| ==> Valid(texts, schemas[i], v.items[i])
      case _ => forall i :: 0 <= i < |v.items| ==> Valid(texts, s.fields["items"], v.items[i])
  }

  ghost predicate AnyOk(texts: Texts, s: Json, v: Json)
    requires s.Obj?
    decreases s, 0
  {
    "anyOf" in s.fields && s.fields["anyOf"].Arr? ==>
      exists i :: 0 <= i < |s.fields["anyOf"].items| && Valid(texts, s.fields["anyOf"].items[i], v)
  }

  ghost predicate AllOk(texts: Texts, s: Json, v: Json)
    requires s.Obj?
    decreases s, 0
  {
    "allOf" in s.fields && s.fields["allOf"].Arr? ==>
      forall i :: 0 <= i < |s.fields["allOf"].items| ==> Valid(texts, s.fields["allOf"].items[i], v)
  }

  ghost predicate NotOk(texts: Texts, s: Json, v: Json)
    requires s.Obj?
    decreases s, 0
  {
    "not" in s.fields ==> !Valid(texts, s.fields["not"], v)
  }
}
