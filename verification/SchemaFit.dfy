/** The fit check of a rewritten schema, and the theorem it guards: rewriting only weakens a schema that fits. */
module SchemaFit {
  import opened Wrappers
  import opened SchemaStrip
  import opened SchemaForm
  import opened SchemaMeaning

  // ----- the fit check -----

  const MAX_DEPTH := 64
  const MAX_OPTIONAL := 24
  const MAX_UNIONS := 16

  predicate Structured(key: string) {
    || key == "type" || key == "properties" || key == "required" || key == "additionalProperties" || key == "items"
    || key == "enum" || key == "const" || key == "anyOf" || key == "allOf" || key == "$ref" || key == "$defs"
    || key == "definitions" || key == "description" || key == "title" || key == "default" || key == "examples"
    || key == "format" || key == "minItems" || key == "pattern" || key == "$schema" || key == "$id" || key == "$comment"
  }

  predicate KnownFormat(format: string) {
    || format == "date-time" || format == "time" || format == "date" || format == "duration" || format == "email"
    || format == "hostname" || format == "uri" || format == "ipv4" || format == "ipv6" || format == "uuid"
  }

  predicate Typed(m: Fields) { "type" in m || "anyOf" in m || "allOf" in m || "enum" in m || "const" in m || "$ref" in m }

  predicate IsUnion(m: Fields) { "anyOf" in m || ("type" in m && m["type"].Arr?) }

  predicate IsObject(m: Fields) {
    ("type" in m && m["type"] == Str("object")) || ("properties" in m && m["properties"] != Null)
  }

  /** No external reference, only known formats and supported patterns. */
  predicate FitsTexts(lib: Library, m: Fields) {
    && ("$ref" in m && m["$ref"].Str? ==> "#" <= m["$ref"].chars)
    && ("format" in m && m["format"].Str? ==> KnownFormat(m["format"].chars))
    && ("pattern" in m && m["pattern"].Str? ==> !lib.unsupportedPattern(m["pattern"].chars))
  }

  /** The limits on a node's own keywords. */
  ghost predicate FitsHere(lib: Library, m: Fields) {
    && (forall key :: key in m ==> Structured(key))
    && FitsTexts(lib, m)
    && ("enum" in m && m["enum"].Arr? ==> forall i :: 0 <= i < |m["enum"].items| ==> !m["enum"].items[i].Obj? && !m["enum"].items[i].Arr?)
    && (IsObject(m) ==> "additionalProperties" in m && m["additionalProperties"] == Bool(false))
    && (forall name :: Named(m, name) ==> m["properties"].fields[name].Obj? && Typed(m["properties"].fields[name].fields))
  }

  ghost predicate Fits(lib: Library, node: Json, depth: nat)
    decreases node, 1
  {
    && depth <= MAX_DEPTH
    && (node.Obj? ==>
          && FitsHere(lib, node.fields)
          && NamesFit(lib, node, "properties", depth) && NamesFit(lib, node, "$defs", depth) && NamesFit(lib, node, "definitions", depth)
          && ChildFits(lib, node, "items", depth) && ChildFits(lib, node, "additionalProperties", depth)
          && ListFits(lib, node, "anyOf", depth) && ListFits(lib, node, "allOf", depth))
  }

  ghost predicate NamesFit(lib: Library, node: Json, key: string, depth: nat)
    requires node.Obj?
    decreases node, 0
  {
    key in node.fields && node.fields[key].Obj? ==>
      forall name :: name in node.fields[key].fields ==> Fits(lib, node.fields[key].fields[name], depth + 1)
  }

  ghost predicate ChildFits(lib: Library, node: Json, key: string, depth: nat)
    requires node.Obj?
    decreases node, 0
  {
    key in node.fields && node.fields[key].Obj? ==> Fits(lib, node.fields[key], depth + 1)
  }

  ghost predicate ListFits(lib: Library, node: Json, key: string, depth: nat)
    requires node.Obj?
    decreases node, 0
  {
    key in node.fields && node.fields[key].Arr? ==>
      forall i :: 0 <= i < |node.fields[key].items| ==> Fits(lib, node.fields[key].items[i], depth + 1)
  }

  // ----- the schemas the theorem is about -----

  predicate SafeEnum(m: Fields) { ListBesideEnum(m) ==> !NamesComposite(m["type"].items, m["enum"].items) }

  /** No reference, items is one schema, and no type list beside an enum names the type of a composite value. */
  ghost predicate Simple(s: Json)
    decreases s, 1
  {
    s.Obj? ==>
      && "$ref" !in s.fields && ("items" in s.fields ==> !s.fields["items"].Arr?) && SafeEnum(s.fields)
      && NamesSimple(s, "properties") && ChildSimple(s, "items") && ChildSimple(s, "additionalProperties")
      && ListSimple(s, "anyOf") && ListSimple(s, "allOf")
  }

  ghost predicate NamesSimple(s: Json, key: string)
    requires s.Obj?
    decreases s, 0
  {
    key in s.fields && s.fields[key].Obj? ==> forall name :: name in s.fields[key].fields ==> Simple(s.fields[key].fields[name])
  }

  ghost predicate ChildSimple(s: Json, key: string)
    requires s.Obj?
    decreases s, 0
  {
    key in s.fields ==> Simple(s.fields[key])
  }

  ghost predicate ListSimple(s: Json, key: string)
    requires s.Obj?
    decreases s, 0
  {
    key in s.fields && s.fields[key].Arr? ==> forall i :: 0 <= i < |s.fields[key].items| ==> Simple(s.fields[key].items[i])
  }

  // ----- one node -----

  /** w holds what the rewriting makes of m. */
  ghost predicate Rewritten(lib: Library, m: Fields, w: Fields) {
    && (forall key :: Plain(key) ==> (key in w <==> key in m && Kept(lib, key, m[key])))
    && (forall key :: Plain(key) && key in w ==> w[key] == StripField(lib, key, m[key]))
    && ("type" in w <==> "type" in m && !ListBesideEnum(m))
    && ("type" in w ==> w["type"] == Strip(lib, m["type"]))
    && ("enum" in w <==> "enum" in m)
    && ("enum" in m && !ListBesideEnum(m) ==> w["enum"] == m["enum"])
    && (ListBesideEnum(m) ==> w["enum"] == Arr(Allowed(m["type"].items, m["enum"].items)))
  }

  lemma StripRewrites(lib: Library, v: Json)
    requires v.Obj?
    ensures Rewritten(lib, v.fields, Strip(lib, v).fields)
  {
    var m, w := v.fields, Strip(lib, v).fields;
    TypeAndEnum(lib, v);
    forall key | Plain(key) ensures (key in w <==> key in m && Kept(lib, key, m[key])) && (key in w ==> w[key] == StripField(lib, key, m[key])) {
      PlainField(lib, v, key);
    }
  }

  lemma ListMatchesStripped(lib: Library, types: seq<Json>, v: Json)
    requires ListMatches(types, v)
    ensures ListMatches(Strip(lib, Arr(types)).items, v)
  {
    var i :| 0 <= i < |types| && TypeMatches(types[i], v);
    assert Strip(lib, Arr(types)).items[i] == types[i];
  }

  lemma TypeAndEnumWeaken(lib: Library, m: Fields, w: Fields, v: Json)
    requires Rewritten(lib, m, w) && SafeEnum(m) && WellFormed(Obj(m)) && WellFormed(v)
    requires TypeOk(m, v) && EnumOk(m, v)
    ensures TypeOk(w, v) && EnumOk(w, v)
  {
    if ListBesideEnum(m) {
      assert WellFormed(m["enum"]);
      AmongAllowed(m["type"].items, m["enum"].items, v);
    } else if "type" in m && m["type"].Arr? {
      ListMatchesStripped(lib, m["type"].items, v);
    }
  }

  lemma RequiredWeakens(lib: Library, m: Fields, w: Fields, v: Json)
    requires Rewritten(lib, m, w) && RequiredOk(m, v)
    ensures RequiredOk(w, v)
  {
    assert Plain("required");
    if "required" in w && w["required"].Arr? {
      var names := m["required"];
      StripKind(lib, names);
      forall i | 0 <= i < |w["required"].items| && w["required"].items[i].Str? ensures names.items[i] == w["required"].items[i] {
        assert w["required"].items[i] == Strip(lib, names.items[i]);
      }
    }
  }

  lemma LocalWeakens(lib: Library, texts: Texts, m: Fields, w: Fields, v: Json)
    requires Rewritten(lib, m, w) && SafeEnum(m) && WellFormed(Obj(m)) && WellFormed(v)
    requires LocalOk(texts, m, v)
    ensures LocalOk(texts, w, v)
  {
    TypeAndEnumWeaken(lib, m, w, v);
    RequiredWeakens(lib, m, w, v);
    assert Plain("const") && Plain("pattern") && Plain("format") && Plain("minItems");
    StripScalars(lib, m);
  }

  /** A keyword whose rewritten value is a text or a number had that value. */
  lemma StripScalars(lib: Library, m: Fields)
    ensures forall key :: key in m && !IsData(key) && (StripField(lib, key, m[key]).Str? || StripField(lib, key, m[key]).Num?) ==>
              StripField(lib, key, m[key]) == m[key]
  {
  }

  lemma BoundsVanish(lib: Library, m: Fields, w: Fields, v: Json)
    requires Rewritten(lib, m, w)
    ensures BoundsOk(w, v)
  {
    assert forall key :: Rejected(key) ==> Plain(key);
    assert forall key :: Rejected(key) ==> key !in w;
  }

  // ----- the theorem -----

  lemma PropertiesRewritten(lib: Library, m: Fields, w: Fields)
    requires Rewritten(lib, m, w)
    ensures forall name :: Named(w, name) <==> Named(m, name)
    ensures forall name :: Named(w, name) && Named(m, name) ==> w["properties"].fields[name] == Strip(lib, m["properties"].fields[name])
  {
    assert Plain("properties") && IsNaming("properties");
    if "properties" in m { StripKind(lib, m["properties"]); }
  }

  lemma ChildRewritten(lib: Library, m: Fields, w: Fields, key: string)
    requires Rewritten(lib, m, w) && (key == "items" || key == "additionalProperties")
    ensures key in w <==> key in m
    ensures key in w ==> w[key] == Strip(lib, m[key]) && w[key].Obj? == m[key].Obj? && w[key].Arr? == m[key].Arr?
  {
    assert Plain(key);
  }

  /** A subschema whose rewriting fits, or that is no object. */
  lemma ChildWeakens(lib: Library, texts: Texts, child: Json, v: Json, depth: nat)
    requires WellFormed(child) && Simple(child) && WellFormed(v) && Valid(texts, child, v)
    requires child.Obj? ==> Fits(lib, Strip(lib, child), depth)
    ensures Valid(texts, Strip(lib, child), v)
    decreases child, 2
  {
    if child.Obj? { Weakens(lib, texts, child, v, depth); }
  }

  lemma PropertiesWeaken(lib: Library, texts: Texts, s: Json, w: Fields, v: Json, depth: nat)
    requires s.Obj? && WellFormed(s) && WellFormed(v)
    requires forall name :: Named(w, name) <==> Named(s.fields, name)
    requires forall name :: Named(w, name) && Named(s.fields, name) ==>
               w["properties"].fields[name] == Strip(lib, s.fields["properties"].fields[name])
    requires NamesSimple(s, "properties") && NamesFit(lib, Obj(w), "properties", depth) && PropertiesOk(texts, s, v)
    ensures PropertiesOk(texts, Obj(w), v)
    decreases s, 0
  {
    if v.Obj? {
      forall name | Named(w, name) && name in v.fields ensures Valid(texts, w["properties"].fields[name], v.fields[name]) {
        var child := s.fields["properties"].fields[name];
        assert WellFormed(s.fields["properties"]);
        ChildWeakens(lib, texts, child, v.fields[name], depth + 1);
      }
    }
  }

  lemma AdditionalWeakens(lib: Library, texts: Texts, s: Json, w: Fields, v: Json, depth: nat)
    requires s.Obj? && WellFormed(s) && WellFormed(v)
    requires forall name :: Named(w, name) <==> Named(s.fields, name)
    requires "additionalProperties" in w ==> "additionalProperties" in s.fields
    requires "additionalProperties" in w ==> w["additionalProperties"] == Strip(lib, s.fields["additionalProperties"])
    requires ChildSimple(s, "additionalProperties") && ChildFits(lib, Obj(w), "additionalProperties", depth) && AdditionalOk(texts, s, v)
    ensures AdditionalOk(texts, Obj(w), v)
    decreases s, 0
  {
    if v.Obj? && "additionalProperties" in w {
      var child := s.fields["additionalProperties"];
      forall name | name in v.fields && !Named(w, name) ensures Valid(texts, w["additionalProperties"], v.fields[name]) {
        ChildWeakens(lib, texts, child, v.fields[name], depth + 1);
      }
    }
  }

  lemma ItemsWeaken(lib: Library, texts: Texts, s: Json, w: Fields, v: Json, depth: nat)
    requires s.Obj? && WellFormed(s) && WellFormed(v)
    requires "items" in w ==> "items" in s.fields && w["items"] == Strip(lib, s.fields["items"]) && !w["items"].Arr? && !s.fields["items"].Arr?
    requires ChildSimple(s, "items") && ChildFits(lib, Obj(w), "items", depth) && ItemsOk(texts, s, v)
    ensures ItemsOk(texts, Obj(w), v)
    decreases s, 0
  {
    if v.Arr? && "items" in w {
      forall i | 0 <= i < |v.items| ensures Valid(texts, w["items"], v.items[i]) {
        ChildWeakens(lib, texts, s.fields["items"], v.items[i], depth + 1);
      }
    }
  }

  lemma AnyWeakens(lib: Library, texts: Texts, s: Json, w: Fields, v: Json, depth: nat)
    requires s.Obj? && WellFormed(s) && WellFormed(v) && Rewritten(lib, s.fields, w)
    requires ListSimple(s, "anyOf") && ListFits(lib, Obj(w), "anyOf", depth) && AnyOk(texts, s, v)
    ensures AnyOk(texts, Obj(w), v)
    decreases s, 0
  {
    assert Plain("anyOf");
    if "anyOf" in w && w["anyOf"].Arr? {
      var list := s.fields["anyOf"];
      StripKind(lib, list);
      assert WellFormed(list);
      var i :| 0 <= i < |list.items| && Valid(texts, list.items[i], v);
      assert w["anyOf"].items[i] == Strip(lib, list.items[i]);
      Weakens(lib, texts, list.items[i], v, depth + 1);
    }
  }

  lemma AllWeaken(lib: Library, texts: Texts, s: Json, w: Fields, v: Json, depth: nat)
    requires s.Obj? && WellFormed(s) && WellFormed(v) && Rewritten(lib, s.fields, w)
    requires ListSimple(s, "allOf") && ListFits(lib, Obj(w), "allOf", depth) && AllOk(texts, s, v)
    ensures AllOk(texts, Obj(w), v)
    decreases s, 0
  {
    assert Plain("allOf");
    if "allOf" in w && w["allOf"].Arr? {
      var list := s.fields["allOf"];
      StripKind(lib, list);
      assert WellFormed(list);
      forall i | 0 <= i < |w["allOf"].items| ensures Valid(texts, w["allOf"].items[i], v) {
        assert w["allOf"].items[i] == Strip(lib, list.items[i]);
        Weakens(lib, texts, list.items[i], v, depth + 1);
      }
    }
  }

  /** What fits has no not. */
  lemma NotIsAbsent(lib: Library, texts: Texts, w: Fields, v: Json)
    requires FitsHere(lib, w)
    ensures NotOk(texts, Obj(w), v)
  {
    assert !Structured("not");
  }

  lemma {:induction false} Weakens(lib: Library, texts: Texts, s: Json, v: Json, depth: nat)
    requires WellFormed(s) && Simple(s) && Fits(lib, Strip(lib, s), depth) && WellFormed(v) && Valid(texts, s, v)
    ensures Valid(texts, Strip(lib, s), v)
    decreases s, 1
  {
    if s.Obj? {
      var w := Strip(lib, s).fields;
      StripRewrites(lib, s);
      LocalWeakens(lib, texts, s.fields, w, v);
      BoundsVanish(lib, s.fields, w, v);
      PropertiesRewritten(lib, s.fields, w);
      ChildRewritten(lib, s.fields, w, "additionalProperties");
      ChildRewritten(lib, s.fields, w, "items");
      PropertiesWeaken(lib, texts, s, w, v, depth);
      AdditionalWeakens(lib, texts, s, w, v, depth);
      ItemsWeaken(lib, texts, s, w, v, depth);
      AnyWeakens(lib, texts, s, w, v, depth);
      AllWeaken(lib, texts, s, w, v, depth);
      NotIsAbsent(lib, texts, w, v);
    }
  }

  // ----- the whole check, with its two counts -----

  /** The sum of the values. */
  ghost function Total(m: map<string, nat>): nat
    decreases |m|
  {
    if m == map[] then 0 else var key :| key in m; m[key] + Total(m - {key})
  }

  lemma {:induction false} TotalWithout(m: map<string, nat>, key: string)
    requires key in m
    ensures Total(m) == m[key] + Total(m - {key})
    decreases |m|
  {
    var first :| first in m && Total(m) == m[first] + Total(m - {first});
    if first != key {
      TotalWithout(m - {first}, key);
      TotalWithout(m - {key}, first);
      assert m - {first} - {key} == m - {key} - {first};
    }
  }

  ghost function Sum(counts: seq<nat>): nat { if counts == [] then 0 else Sum(counts[..|counts| - 1]) + counts[|counts| - 1] }

  /** What the check counts: properties not required, and properties that are unions. */
  datatype Counted = Optional | Union

  predicate IsRequired(m: Fields, name: string) {
    "required" in m && m["required"].Arr? && exists i :: 0 <= i < |m["required"].items| && m["required"].items[i] == Str(name)
  }

  /** One for a property of m the count is about. */
  function Own(what: Counted, m: Fields, name: string, child: Json): nat {
    match what
    case Optional => if IsRequired(m, name) then 0 else 1
    case Union => if child.Obj? && IsUnion(child.fields) then 1 else 0
  }

  ghost function Count(what: Counted, node: Json): nat
    decreases node, 2
  {
    if !node.Obj? then 0
    else
      CountNames(what, node, "properties") + CountNames(what, node, "$defs") + CountNames(what, node, "definitions")
      + CountChild(what, node, "items") + CountChild(what, node, "additionalProperties")
      + CountList(what, node, "anyOf") + CountList(what, node, "allOf")
  }

  ghost function CountNames(what: Counted, node: Json, key: string): nat
    requires node.Obj?
    decreases node, 1
  {
    if key in node.fields && node.fields[key].Obj? then Total(Weights(what, node, key, node.fields[key].fields.Keys)) else 0
  }

  /** What each of the names adds. */
  ghost function Weights(what: Counted, node: Json, key: string, names: set<string>): map<string, nat>
    requires node.Obj? && key in node.fields && node.fields[key].Obj? && names <= node.fields[key].fields.Keys
    decreases node, 0
  {
    map name | name in names ::
      Count(what, node.fields[key].fields[name])
      + if key == "properties" then Own(what, node.fields, name, node.fields[key].fields[name]) else 0
  }

  ghost function CountChild(what: Counted, node: Json, key: string): nat
    requires node.Obj?
    decreases node, 1
  {
    if key in node.fields && node.fields[key].Obj? then Count(what, node.fields[key]) else 0
  }

  ghost function CountList(what: Counted, node: Json, key: string): nat
    requires node.Obj?
    decreases node, 1
  {
    if key in node.fields && node.fields[key].Arr?
    then Sum(seq(|node.fields[key].items|, i requires 0 <= i < |node.fields[key].items| => Count(what, node.fields[key].items[i]))) else 0
  }

  ghost predicate SchemaFits(lib: Library, schema: Json) {
    Fits(lib, schema, 0) && Count(Optional, schema) <= MAX_OPTIONAL && Count(Union, schema) <= MAX_UNIONS
  }

  /** When the rewritten schema passes the fit check, every instance valid under the caller's schema is valid
      under the rewritten one. */
  lemma FittingRewriteWeakens(lib: Library, texts: Texts, s: Json, v: Json)
    requires WellFormed(s) && Simple(s) && SchemaFits(lib, Strip(lib, s))
    requires WellFormed(v) && Valid(texts, s, v)
    ensures Valid(texts, Strip(lib, s), v)
  {
    Weakens(lib, texts, s, v, 0);
  }

  // ----- each premise is needed -----

  const UNIQUE := Obj(map["uniqueItems" := Bool(true)])
  const NEGATED := Obj(map["not" := UNIQUE])
  const PAIR := Arr([Null, Null])

  predicate Few(m: Fields) {
    forall key :: key in m ==> key == "type" || key == "enum" || key == "not" || key == "items" || key == "description"
  }

  lemma FewLocal(texts: Texts, m: Fields, v: Json)
    requires Few(m)
    ensures LocalOk(texts, m, v) <==> TypeOk(m, v) && EnumOk(m, v)
  {
  }

  lemma FewUnbounded(m: Fields, v: Json)
    requires Few(m)
    ensures BoundsOk(m, v)
  {
  }

  /** A schema of type, enum, not, items and description alone means those. */
  lemma FewMeans(texts: Texts, m: Fields, v: Json)
    requires Few(m)
    ensures Valid(texts, Obj(m), v) <==> TypeOk(m, v) && EnumOk(m, v) && NotOk(texts, Obj(m), v) && ItemsOk(texts, Obj(m), v)
  {
    FewLocal(texts, m, v);
    FewUnbounded(m, v);
    assert PropertiesOk(texts, Obj(m), v) && AdditionalOk(texts, Obj(m), v);
    assert AnyOk(texts, Obj(m), v) && AllOk(texts, Obj(m), v);
  }

  lemma UniqueIsDropped(lib: Library)
    ensures forall key :: key in Strip(lib, UNIQUE).fields ==> key == "description"
  {
    StripRewrites(lib, UNIQUE);
    assert Rejected("uniqueItems");
  }

  lemma PairIsNotUnique(texts: Texts)
    ensures !Valid(texts, UNIQUE, PAIR)
  {
    assert Equal(PAIR.items[0], PAIR.items[1]);
    assert !BoundsOk(UNIQUE.fields, PAIR);
  }

  lemma NegatedKeys(lib: Library)
    ensures var w := Strip(lib, NEGATED).fields;
            && "not" in w && w["not"] == Strip(lib, UNIQUE)
            && forall key :: key in w ==> key == "not" || key == "description"
  {
    StripRewrites(lib, NEGATED);
    assert Plain("not");
  }

  lemma NegatedIsSimple()
    ensures WellFormed(NEGATED) && Simple(NEGATED) && WellFormed(PAIR)
  {
    assert WellFormed(UNIQUE);
  }

  /** Without the fit check the rewriting can strengthen: a dropped bound under not. */
  lemma NotStrengthens(lib: Library, texts: Texts)
    ensures WellFormed(NEGATED) && Simple(NEGATED) && WellFormed(PAIR)
    ensures Valid(texts, NEGATED, PAIR) && !Valid(texts, Strip(lib, NEGATED), PAIR)
  {
    NegatedIsSimple();
    PairIsNotUnique(texts);
    FewMeans(texts, NEGATED.fields, PAIR);
    NegatedKeys(lib);
    UniqueIsDropped(lib);
    FewMeans(texts, Strip(lib, UNIQUE).fields, PAIR);
    FewMeans(texts, Strip(lib, NEGATED).fields, PAIR);
  }

  const EMPTY_OBJECT := Obj(map[])
  const LISTED := Obj(map["type" := Arr([Str("object")]), "enum" := Arr([EMPTY_OBJECT])])

  lemma ListedKeys(lib: Library)
    ensures var w := Strip(lib, LISTED).fields;
            "enum" in w && w["enum"] == Arr([]) && forall key :: key in w ==> key == "enum" || key == "description"
  {
    var types, values := LISTED.fields["type"].items, LISTED.fields["enum"].items;
    StripRewrites(lib, LISTED);
    assert values[..0] == [] && !ListAllows(types, values[0]);
    assert Allowed(types, values) == [];
  }

  lemma FewCountNothing(what: Counted, m: Fields)
    requires forall key :: key in m ==> key == "items" || key == "enum" || key == "description"
    requires "items" in m ==> !m["items"].Obj?
    ensures Count(what, Obj(m)) == 0
  {
    var node := Obj(m);
    assert CountNames(what, node, "properties") == 0 && CountNames(what, node, "$defs") == 0 && CountNames(what, node, "definitions") == 0;
    assert CountChild(what, node, "items") == 0 && CountChild(what, node, "additionalProperties") == 0;
    assert CountList(what, node, "anyOf") == 0 && CountList(what, node, "allOf") == 0;
  }

  /** A schema of items, enum and description alone fits when its items is no object and its enum is empty. */
  lemma FewFit(lib: Library, m: Fields)
    requires forall key :: key in m ==> key == "items" || key == "enum" || key == "description"
    requires "items" in m ==> !m["items"].Obj?
    requires "enum" in m ==> m["enum"] == Arr([])
    ensures SchemaFits(lib, Obj(m))
  {
    assert FitsHere(lib, m);
    FewCountNothing(Optional, m);
    FewCountNothing(Union, m);
  }

  lemma ListedAccepts(texts: Texts)
    ensures Valid(texts, LISTED, EMPTY_OBJECT) && WellFormed(EMPTY_OBJECT)
  {
    FewMeans(texts, LISTED.fields, EMPTY_OBJECT);
    ListedTypeAndEnum();
  }

  lemma ListedTypeAndEnum()
    ensures TypeOk(LISTED.fields, EMPTY_OBJECT) && EnumOk(LISTED.fields, EMPTY_OBJECT)
  {
    assert TypeMatches(LISTED.fields["type"].items[0], EMPTY_OBJECT);
    assert Equal(EMPTY_OBJECT, LISTED.fields["enum"].items[0]);
  }

  /** Without the condition on type lists it can strengthen a schema that fits: an object beside object. */
  lemma CompositeStrengthens(lib: Library, texts: Texts)
    ensures SchemaFits(lib, Strip(lib, LISTED)) && WellFormed(EMPTY_OBJECT)
    ensures Valid(texts, LISTED, EMPTY_OBJECT) && !Valid(texts, Strip(lib, LISTED), EMPTY_OBJECT)
  {
    ListedKeys(lib);
    FewFit(lib, Strip(lib, LISTED).fields);
    ListedAccepts(texts);
    FewMeans(texts, Strip(lib, LISTED).fields, EMPTY_OBJECT);
  }

  const TUPLE := Obj(map["items" := Arr([NEGATED])])

  lemma TupleKeys(lib: Library)
    ensures var w := Strip(lib, TUPLE).fields;
            "items" in w && w["items"] == Arr([Strip(lib, NEGATED)]) && forall key :: key in w ==> key == "items" || key == "description"
  {
    StripRewrites(lib, TUPLE);
    assert Plain("items");
    assert Strip(lib, TUPLE.fields["items"]).items == [Strip(lib, NEGATED)];
  }

  lemma TupleMeans(texts: Texts, m: Fields, schema: Json, item: Json)
    requires "items" in m && m["items"] == Arr([schema]) && forall key :: key in m ==> key == "items" || key == "description"
    ensures Valid(texts, Obj(m), Arr([item])) <==> Valid(texts, schema, item)
  {
    var schemas, items := [schema], [item];
    FewMeans(texts, m, Arr(items));
    assert ItemsOk(texts, Obj(m), Arr(items)) <==> Valid(texts, schemas[0], items[0]);
  }

  /** Nor may items be a list: the fit check does not look into one. */
  lemma TupleStrengthens(lib: Library, texts: Texts)
    ensures SchemaFits(lib, Strip(lib, TUPLE))
    ensures Valid(texts, TUPLE, Arr([PAIR])) && !Valid(texts, Strip(lib, TUPLE), Arr([PAIR]))
  {
    TupleKeys(lib);
    FewFit(lib, Strip(lib, TUPLE).fields);
    NotStrengthens(lib, texts);
    TupleMeans(texts, TUPLE.fields, NEGATED, PAIR);
    TupleMeans(texts, Strip(lib, TUPLE).fields, Strip(lib, NEGATED), PAIR);
  }
}
