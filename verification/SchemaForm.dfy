/** What the rewriting of a schema leaves: its form, its fixed points and its wording. */
module SchemaForm {
  import opened Wrappers
  import opened SchemaStrip

  // ----- the fields of a rewritten node -----

  predicate Plain(key: string) { key != "description" && key != "type" && key != "enum" }

  lemma ListAllowsStripped(lib: Library, types: seq<Json>, v: Json)
    ensures ListAllows(Strip(lib, Arr(types)).items, v) <==> ListAllows(types, v)
  {
    var stripped := Strip(lib, Arr(types)).items;
    forall i | 0 <= i < |types| ensures TypeAllows(stripped[i], v) <==> TypeAllows(types[i], v) {
      assert stripped[i] == Strip(lib, types[i]);
    }
    assert ListAllows(stripped, v) ==> exists i :: 0 <= i < |types| && TypeAllows(types[i], v);
  }

  lemma {:induction false} AllowedStripped(lib: Library, types: seq<Json>, values: seq<Json>)
    ensures Allowed(Strip(lib, Arr(types)).items, values) == Allowed(types, values)
  {
    if values != [] {
      ListAllowsStripped(lib, types, values[|values| - 1]);
      AllowedStripped(lib, types, values[..|values| - 1]);
    }
  }

  lemma StripKind(lib: Library, v: Json)
    ensures Strip(lib, v).Arr? == v.Arr? && Strip(lib, v).Obj? == v.Obj?
    ensures v.Arr? ==> |Strip(lib, v).items| == |v.items|
  {
  }

  /** Every keyword but description, type and enum is kept exactly when it is no rejected bound, with its value
      rewritten in place. */
  lemma PlainField(lib: Library, v: Json, key: string)
    requires v.Obj? && Plain(key)
    ensures var w := Strip(lib, v).fields;
            && (key in w <==> key in v.fields && Kept(lib, key, v.fields[key]))
            && (key in w ==> w[key] == StripField(lib, key, v.fields[key]))
  {
  }

  lemma StrippedTypeAndEnum(lib: Library, v: Json)
    requires v.Obj?
    ensures var m, s := v.fields, StripFields(lib, v);
            && Field(s, "enum") == Field(m, "enum")
            && Field(s, "type") == if "type" in m then Some(Strip(lib, m["type"])) else None
  {
    assert !Rejected("enum") && !Rejected("type");
  }

  lemma DescribedElsewhere(lib: Library, original: Fields, stripped: Fields, key: string)
    requires key != "description"
    ensures Field(Described(lib, original, stripped), key) == Field(stripped, key)
  {
  }

  /** The type and the enum of a rewritten node: a type list beside an enum is absorbed. */
  lemma TypeAndEnum(lib: Library, v: Json)
    requires v.Obj?
    ensures var m, w := v.fields, Strip(lib, v).fields;
            && ("type" in w <==> "type" in m && !ListBesideEnum(m))
            && ("type" in w ==> w["type"] == Strip(lib, m["type"]))
            && ("enum" in w <==> "enum" in m)
            && ("enum" in m && !ListBesideEnum(m) ==> w["enum"] == m["enum"])
            && (ListBesideEnum(m) ==> w["enum"] == Arr(Allowed(m["type"].items, m["enum"].items)))
  {
    var m, s := v.fields, StripFields(lib, v);
    StrippedTypeAndEnum(lib, v);
    DescribedElsewhere(lib, m, s, "type");
    DescribedElsewhere(lib, m, s, "enum");
    if "type" in m { StripKind(lib, m["type"]); }
    if ListBesideEnum(m) { AllowedStripped(lib, m["type"].items, m["enum"].items); }
  }

  lemma DescriptionField(lib: Library, v: Json)
    requires v.Obj?
    ensures var w := Strip(lib, v).fields;
            var described := Described(lib, v.fields, StripFields(lib, v));
            Field(w, "description") == Field(described, "description")
  {
  }

  // ----- no rejected keyword is left at any schema position, and the rest is a fixed point -----

  /** No rejected keyword, no refused minItems and no type list beside an enum at any position but inside data;
      names are not keywords. */
  predicate Settled(lib: Library, v: Json)
    decreases v, 0
  {
    match v
    case Obj(m) => !ListBesideEnum(m) && forall key :: key in m ==> Kept(lib, key, m[key]) && SettledField(lib, key, m[key])
    case Arr(items) => forall i :: 0 <= i < |items| ==> Settled(lib, items[i])
    case _ => true
  }

  predicate SettledField(lib: Library, key: string, v: Json)
    decreases v, 1
  {
    if IsData(key) then true
    else if IsNaming(key) && v.Obj? then forall name :: name in v.fields ==> Settled(lib, v.fields[name])
    else Settled(lib, v)
  }

  lemma {:induction false} NoPhrases(lib: Library, bounds: seq<Bound>, m: Fields)
    ensures Phrases(lib, bounds, m, m) == []
  {
    if bounds != [] { NoPhrases(lib, bounds[..|bounds| - 1], m); }
  }

  lemma {:induction false} SettledIsFixed(lib: Library, v: Json)
    requires Settled(lib, v)
    ensures Strip(lib, v) == v
    decreases v, 0
  {
    match v
    case Obj(m) =>
      forall key | key in m ensures StripField(lib, key, m[key]) == m[key] { SettledFieldIsFixed(lib, key, m[key]); }
      assert StripFields(lib, v) == m;
      NoPhrases(lib, BOUNDS, m);
    case Arr(items) =>
      forall i | 0 <= i < |items| ensures Strip(lib, items[i]) == items[i] { SettledIsFixed(lib, items[i]); }
      assert Strip(lib, v).items == items;
    case _ =>
  }

  lemma {:induction false} SettledFieldIsFixed(lib: Library, key: string, v: Json)
    requires SettledField(lib, key, v)
    ensures StripField(lib, key, v) == v
    decreases v, 1
  {
    if IsData(key) {
    } else if IsNaming(key) && v.Obj? {
      forall name | name in v.fields ensures Strip(lib, v.fields[name]) == v.fields[name] { SettledIsFixed(lib, v.fields[name]); }
      assert StripField(lib, key, v).fields == v.fields;
    } else {
      SettledIsFixed(lib, v);
    }
  }

  lemma {:induction false} StripIsSettled(lib: Library, v: Json)
    ensures Settled(lib, Strip(lib, v))
    decreases v, 0
  {
    match v
    case Obj(m) =>
      var w := Strip(lib, v).fields;
      TypeAndEnum(lib, v);
      if "type" in m { StripKind(lib, m["type"]); }
      forall key | key in w ensures Kept(lib, key, w[key]) && SettledField(lib, key, w[key]) {
        if Plain(key) {
          PlainField(lib, v, key);
          FieldIsSettled(lib, key, m[key]);
        } else if key == "type" {
          StripIsSettled(lib, m[key]);
        } else if key == "description" {
          DescriptionField(lib, v);
          if key in m { StripIsSettled(lib, m[key]); }
        }
      }
    case Arr(items) => forall i | 0 <= i < |items| { StripIsSettled(lib, items[i]); }
    case _ =>
  }

  lemma {:induction false} FieldIsSettled(lib: Library, key: string, v: Json)
    requires Kept(lib, key, v)
    ensures Kept(lib, key, StripField(lib, key, v)) && SettledField(lib, key, StripField(lib, key, v))
    decreases v, 1
  {
    if IsData(key) {
    } else if IsNaming(key) && v.Obj? {
      forall name | name in v.fields { StripIsSettled(lib, v.fields[name]); }
    } else {
      StripIsSettled(lib, v);
    }
  }

  /** Rewriting a rewritten schema changes nothing; the fixed points are exactly the settled schemas. */
  lemma StripIsIdempotent(lib: Library, v: Json)
    ensures Strip(lib, Strip(lib, v)) == Strip(lib, v)
    ensures Strip(lib, v) == v <==> Settled(lib, v)
  {
    StripIsSettled(lib, v);
    SettledIsFixed(lib, Strip(lib, v));
    if Settled(lib, v) { SettledIsFixed(lib, v); }
  }

  // ----- names and data stay -----

  /** Names of properties and definitions stay, each with its own schema rewritten; data stays as given, but
      for an enum beside a type list, which keeps the values the list allows. */
  lemma NamesAndDataKept(lib: Library, v: Json, key: string)
    requires v.Obj? && key in v.fields
    requires key in ["default", "const", "enum", "examples"] || (key in ["properties", "$defs", "definitions"] && v.fields[key].Obj?)
    ensures var m, w := v.fields, Strip(lib, v).fields;
            && key in w
            && (key in ["default", "const", "enum", "examples"] && !(key == "enum" && ListBesideEnum(m)) ==> w[key] == m[key])
            && (key in ["properties", "$defs", "definitions"] ==> w[key].Obj? && w[key].fields.Keys == m[key].fields.Keys)
            && (key in ["properties", "$defs", "definitions"] ==> forall name :: name in m[key].fields ==> w[key].fields[name] == Strip(lib, m[key].fields[name]))
  {
    hide Strip, ListBesideEnum, TypeAllows, ListAllows, Allowed;
    StripKind(lib, v);
    if key == "enum" {
      TypeAndEnum(lib, v);
    } else {
      PlainField(lib, v, key);
      assert !Rejected(key) && key != "minItems";
    }
  }

  // ----- every dropped bound is worded -----

  lemma {:induction false} PhraseIsListed(lib: Library, bounds: seq<Bound>, original: Fields, stripped: Fields, i: nat)
    requires i < |bounds| && Phrase(lib, bounds[i], original, stripped).Some?
    ensures Phrase(lib, bounds[i], original, stripped).value in Phrases(lib, bounds, original, stripped)
  {
    if i < |bounds| - 1 { PhraseIsListed(lib, bounds[..|bounds| - 1], original, stripped, i); }
  }

  lemma {:induction false} JoinHolds(phrases: seq<string>, p: string) returns (a: string, c: string)
    requires p in phrases
    ensures Join(phrases) == a + p + c
  {
    if phrases[0] == p {
      a, c := "", Join(phrases)[|p|..];
    } else {
      var b, d := JoinHolds(phrases[1..], p);
      a, c := phrases[0] + "; " + b, d;
    }
  }

  /** Where the table words a keyword. */
  lemma BoundIndex(key: string) returns (i: nat)
    requires Rejected(key) || key == "minItems"
    ensures i < |BOUNDS| && BOUNDS[i].key == key
  {
    i := match key
      case "minLength" => 0 case "maxLength" => 1 case "minimum" => 2 case "maximum" => 3
      case "exclusiveMinimum" => 4 case "exclusiveMaximum" => 5 case "multipleOf" => 6
      case "minItems" => 7 case "maxItems" => 8 case "uniqueItems" => 9
      case "minContains" => 10 case "maxContains" => 11 case "minProperties" => 12 case _ => 13;
  }

  /** The words of a limit. */
  function Worded(key: string, value: string): string {
    match key
    case "minLength" => "at least " + value + " characters"
    case "maxLength" => "at most " + value + " characters"
    case "minimum" => "at least " + value
    case "maximum" => "at most " + value
    case "exclusiveMinimum" => "greater than " + value
    case "exclusiveMaximum" => "less than " + value
    case "multipleOf" => "a multiple of " + value
    case "minItems" => "at least " + value + " items"
    case "maxItems" => "at most " + value + " items"
    case "uniqueItems" => "unique items"
    case "minContains" => "at least " + value + " matching items"
    case "maxContains" => "at most " + value + " matching items"
    case "minProperties" => "at least " + value + " properties"
    case "maxProperties" => "at most " + value + " properties"
    case _ => ""
  }

  /** The phrase of the table is the words of its keyword. */
  lemma PhraseIsWorded(lib: Library, i: nat, original: Fields, stripped: Fields)
    requires i < |BOUNDS| && Phrase(lib, BOUNDS[i], original, stripped).Some?
    ensures Phrase(lib, BOUNDS[i], original, stripped).value == Worded(BOUNDS[i].key, BoundValue(lib, original[BOUNDS[i].key]))
  {
    var value := BoundValue(lib, original[BOUNDS[i].key]);
    assert "at least " + value + "" == "at least " + value && "at most " + value + "" == "at most " + value;
    assert "greater than " + value + "" == "greater than " + value && "less than " + value + "" == "less than " + value;
    assert "a multiple of " + value + "" == "a multiple of " + value;
  }

  /** A key missing from the rewritten node is an absorbed type list, a uniqueItems that was not true, or a bound
      whose words stand in the node's description. */
  lemma DropIsWorded(lib: Library, v: Json, key: string) returns (a: string, c: string)
    requires v.Obj? && key in v.fields && key !in Strip(lib, v).fields
    requires !(key == "type" && ListBesideEnum(v.fields)) && !(key == "uniqueItems" && v.fields[key] != Bool(true))
    ensures var m, w := v.fields, Strip(lib, v).fields;
            "description" in w && w["description"].Str? && w["description"].chars == a + Worded(key, BoundValue(lib, m[key])) + c
    ensures Worded(key, BoundValue(lib, v.fields[key])) != ""
  {
    var m, s := v.fields, StripFields(lib, v);
    DroppedIsBound(lib, v, key);
    var i := BoundIndex(key);
    var phrase := Phrase(lib, BOUNDS[i], m, s).value;
    PhraseIsWorded(lib, i, m, s);
    PhraseIsListed(lib, BOUNDS, m, s, i);
    DescriptionField(lib, v);
    a, c := WordingHolds(Field(s, "description"), Phrases(lib, BOUNDS, m, s), phrase);
  }

  /** The keywords a rewritten node has: every one it had but the thirteen that are refused, a minItems other than 0 or
      1 and an absorbed type list, and a description if a limit is worded. */
  lemma KeysExactly(lib: Library, v: Json, key: string)
    requires v.Obj?
    ensures key in Strip(lib, v).fields <==>
            || (&& key in v.fields
                && key !in ["minimum", "maximum", "exclusiveMinimum", "exclusiveMaximum", "multipleOf", "minLength", "maxLength", "maxItems",
                            "uniqueItems", "minContains", "maxContains", "minProperties", "maxProperties"]
                && (key == "minItems" ==> v.fields[key].Num? && lib.zeroOrOne(v.fields[key].text))
                && !(key == "type" && ListBesideEnum(v.fields)))
            || (key == "description" && exists k :: k in v.fields && Limits(lib, v.fields, k))
  {
    if key == "description" {
      DescriptionExactly(lib, v);
    } else if Plain(key) {
      PlainField(lib, v, key);
    } else {
      TypeAndEnum(lib, v);
    }
  }

  lemma DescriptionExactly(lib: Library, v: Json)
    requires v.Obj?
    ensures "description" in Strip(lib, v).fields <==> "description" in v.fields || exists k :: k in v.fields && Limits(lib, v.fields, k)
  {
    DescriptionField(lib, v);
    if k :| k in v.fields && Limits(lib, v.fields, k) {
      var i := BoundIndex(k);
      PhraseIsListed(lib, BOUNDS, v.fields, StripFields(lib, v), i);
    } else {
      NothingWorded(lib, BOUNDS, v.fields, StripFields(lib, v));
    }
  }

  /** The keyword is a bound of the node that the rewriting drops, and limits something. */
  predicate Limits(lib: Library, m: Fields, key: string)
    requires key in m
  {
    (Rejected(key) && (key == "uniqueItems" ==> m[key] == Bool(true))) || (key == "minItems" && !(m[key].Num? && lib.zeroOrOne(m[key].text)))
  }

  lemma DroppedIsBound(lib: Library, v: Json, key: string)
    requires v.Obj? && key in v.fields && key !in Strip(lib, v).fields && !(key == "type" && ListBesideEnum(v.fields))
    ensures (Rejected(key) || key == "minItems") && key !in StripFields(lib, v)
  {
    TypeAndEnum(lib, v);
    DescriptionField(lib, v);
    if Plain(key) { PlainField(lib, v, key); }
  }

  lemma WordingHolds(existing: Option<Json>, phrases: seq<string>, phrase: string) returns (a: string, c: string)
    requires phrase in phrases
    ensures Wording(existing, phrases) == a + phrase + c
  {
    var b, e := JoinHolds(phrases, phrase);
    var limits, text := "Limits: " + Join(phrases) + ".", Wording(existing, phrases);
    var lead := text[..|text| - |limits|];
    assert text == lead + limits;
    a, c := lead + "Limits: " + b, e + ".";
  }

  lemma {:induction false} NothingWorded(lib: Library, bounds: seq<Bound>, original: Fields, stripped: Fields)
    requires forall i :: 0 <= i < |bounds| ==> Phrase(lib, bounds[i], original, stripped).None?
    ensures Phrases(lib, bounds, original, stripped) == []
  {
    if bounds != [] { NothingWorded(lib, bounds[..|bounds| - 1], original, stripped); }
  }

  /** When the only bound a node loses is a uniqueItems that was not true, its description is the caller's. */
  lemma DescriptionKept(lib: Library, v: Json)
    requires v.Obj?
    requires forall key :: key in v.fields && !Kept(lib, key, v.fields[key]) ==> key == "uniqueItems" && v.fields[key] != Bool(true)
    ensures Field(Strip(lib, v).fields, "description") ==
            if "description" in v.fields then Some(Strip(lib, v.fields["description"])) else None
  {
    var m, s := v.fields, StripFields(lib, v);
    NothingWorded(lib, BOUNDS, m, s);
    DescriptionField(lib, v);
  }
}
