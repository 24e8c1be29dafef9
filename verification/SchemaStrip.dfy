/** The rewriting of a JSON schema for structured outputs: rejected bounds are dropped and worded into the
    description, and an enum beside a type list absorbs the list. */
module SchemaStrip {
  import opened Wrappers
  import opened NumberText

  /** A decoded JSON value; a number is its text. */
  datatype Json =
    | Null
    | Bool(value: bool)
    | Num(text: string)
    | Str(chars: string)
    | Arr(items: seq<Json>)
    | Obj(fields: map<string, Json>)

  type Fields = map<string, Json>

  /** Library functions: whether a number text rounds to 0 or 1 as a 64-bit float, the JSON text of a value, and
      whether a pattern uses back-references, look-around or word boundaries. */
  datatype Library = Library(zeroOrOne: string -> bool, encode: Json -> string, unsupportedPattern: string -> bool)

  /** A bound's keyword and the words around its value. */
  datatype Bound = Bound(key: string, before: string, after: string)

  /** The bounds in the order they are worded. */
  const BOUNDS := [
    Bound("minLength", "at least ", " characters"), Bound("maxLength", "at most ", " characters"),
    Bound("minimum", "at least ", ""), Bound("maximum", "at most ", ""),
    Bound("exclusiveMinimum", "greater than ", ""), Bound("exclusiveMaximum", "less than ", ""),
    Bound("multipleOf", "a multiple of ", ""),
    Bound("minItems", "at least ", " items"), Bound("maxItems", "at most ", " items"),
    Bound("uniqueItems", "unique items", ""),
    Bound("minContains", "at least ", " matching items"), Bound("maxContains", "at most ", " matching items"),
    Bound("minProperties", "at least ", " properties"), Bound("maxProperties", "at most ", " properties")]

  predicate Rejected(key: string) {
    || key == "minimum" || key == "maximum" || key == "exclusiveMinimum" || key == "exclusiveMaximum"
    || key == "multipleOf" || key == "minLength" || key == "maxLength" || key == "maxItems" || key == "uniqueItems"
    || key == "minContains" || key == "maxContains" || key == "minProperties" || key == "maxProperties"
  }

  predicate IsData(key: string) { key == "default" || key == "const" || key == "enum" || key == "examples" }

  /** The keys whose value maps names, which are not keywords, to schemas. */
  predicate IsNaming(key: string) { key == "properties" || key == "$defs" || key == "definitions" }

  function Field(m: Fields, key: string): Option<Json> { if key in m then Some(m[key]) else None }

  // ----- the rewriting -----

  predicate Kept(lib: Library, key: string, v: Json) {
    !Rejected(key) && (key == "minItems" ==> v.Num? && lib.zeroOrOne(v.text))
  }

  function Strip(lib: Library, v: Json): Json
    decreases v, 1
  {
    match v
    case Obj(m) => Obj(Absorbed(Described(lib, m, StripFields(lib, v))))
    case Arr(items) => Arr(seq(|items|, i requires 0 <= i < |items| => Strip(lib, items[i])))
    case _ => v
  }

  function StripFields(lib: Library, v: Json): Fields
    requires v.Obj?
    decreases v, 0
  {
    map key | key in v.fields && Kept(lib, key, v.fields[key]) :: StripField(lib, key, v.fields[key])
  }

  function StripField(lib: Library, key: string, v: Json): Json
    decreases v, 2
  {
    if IsData(key) then v
    else if IsNaming(key) && v.Obj? then Obj(map name | name in v.fields :: Strip(lib, v.fields[name]))
    else Strip(lib, v)
  }

  function BoundValue(lib: Library, v: Json): string { if v.Num? then v.text else lib.encode(v) }

  /** The phrase for a bound that original has and stripped lost, if it limits anything. */
  function Phrase(lib: Library, bound: Bound, original: Fields, stripped: Fields): Option<string> {
    if bound.key !in original || bound.key in stripped then None
    else if bound.key == "uniqueItems" then (if original[bound.key] == Bool(true) then Some(bound.before) else None)
    else Some(bound.before + BoundValue(lib, original[bound.key]) + bound.after)
  }

  function Phrases(lib: Library, bounds: seq<Bound>, original: Fields, stripped: Fields): seq<string> {
    if bounds == [] then []
    else
      var n := |bounds| - 1;
      var p, front := Phrase(lib, bounds[n], original, stripped), Phrases(lib, bounds[..n], original, stripped);
      if p.None? then front else front + [p.value]
  }

  function Join(phrases: seq<string>): string {
    if phrases == [] then "" else if |phrases| == 1 then phrases[0] else phrases[0] + "; " + Join(phrases[1..])
  }

  /** The description with the limits appended to what it said before. */
  function Wording(existing: Option<Json>, phrases: seq<string>): string {
    var text := "Limits: " + Join(phrases) + ".";
    if existing.Some? && existing.value.Str? && existing.value.chars != "" then existing.value.chars + " " + text else text
  }

  function Described(lib: Library, original: Fields, stripped: Fields): Fields {
    var phrases := Phrases(lib, BOUNDS, original, stripped);
    if phrases == [] then stripped
    else stripped["description" := Str(Wording(Field(stripped, "description"), phrases))]
  }

  predicate TextIsInteger(text: string) { Marked(TrimMinus(text)) && Judged(text) }

  /** The code's reading of a type name; object and array allow nothing. */
  predicate TypeAllows(name: Json, v: Json) {
    name.Str? &&
    match name.chars
    case "null" => v.Null?
    case "string" => v.Str?
    case "boolean" => v.Bool?
    case "number" => v.Num?
    case "integer" => v.Num? && TextIsInteger(v.text)
    case _ => false
  }

  predicate ListAllows(types: seq<Json>, v: Json) { exists i :: 0 <= i < |types| && TypeAllows(types[i], v) }

  function Allowed(types: seq<Json>, values: seq<Json>): seq<Json> {
    if values == [] then []
    else if ListAllows(types, values[|values| - 1]) then Allowed(types, values[..|values| - 1]) + [values[|values| - 1]]
    else Allowed(types, values[..|values| - 1])
  }

  predicate ListBesideEnum(m: Fields) { "type" in m && m["type"].Arr? && "enum" in m && m["enum"].Arr? }

  function Absorbed(m: Fields): Fields {
    if ListBesideEnum(m) then m["enum" := Arr(Allowed(m["type"].items, m["enum"].items))] - {"type"} else m
  }

  // ----- the two in-place steps -----

  /** The loop over the phrase table. */
  method Collect(lib: Library, bounds: seq<Bound>, original: Fields, stripped: Fields) returns (limits: seq<string>)
    ensures limits == Phrases(lib, bounds, original, stripped)
  {
    limits := [];
    for i := 0 to |bounds|
      invariant limits == Phrases(lib, bounds[..i], original, stripped)
    {
      var bound := bounds[i];
      assert bounds[..i + 1][..i] == bounds[..i];
      if bound.key in original && bound.key !in stripped {
        if bound.key == "uniqueItems" {
          if original[bound.key] == Bool(true) { limits := limits + [bound.before]; }
        } else {
          limits := limits + [bound.before + BoundValue(lib, original[bound.key]) + bound.after];
        }
      }
    }
    assert bounds[..|bounds|] == bounds;
  }

  method DescribeDroppedBounds(lib: Library, original: Fields, stripped: Fields) returns (out: Fields)
    ensures out == Described(lib, original, stripped)
  {
    var limits := Collect(lib, BOUNDS, original, stripped);
    if limits == [] { return stripped; }
    var text := "Limits: " + Join(limits) + ".";
    if "description" in stripped && stripped["description"].Str? && stripped["description"].chars != "" {
      text := stripped["description"].chars + " " + text;
    }
    out := stripped["description" := Str(text)];
  }

  /** The two loops over the enum's values and the list's names. */
  method EnumWithoutTypeList(m: Fields) returns (out: Fields)
    ensures out == Absorbed(m)
  {
    if !ListBesideEnum(m) { return m; }
    var types, values := m["type"].items, m["enum"].items;
    var kept: seq<Json> := [];
    for i := 0 to |values|
      invariant kept == Allowed(types, values[..i])
    {
      var found, j := false, 0;
      while j < |types| && !found
        invariant 0 <= j <= |types| && (found ==> ListAllows(types, values[i]))
        invariant !found ==> forall k :: 0 <= k < j ==> !TypeAllows(types[k], values[i])
        decreases |types| - j, !found
      {
        if TypeAllows(types[j], values[i]) { found := true; } else { j := j + 1; }
      }
      assert values[..i + 1][..i] == values[..i];
      if found { kept := kept + [values[i]]; }
    }
    assert values[..|values|] == values;
    out := m["enum" := Arr(kept)] - {"type"};
  }
}
