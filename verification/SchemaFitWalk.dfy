/** The fit check as the code runs it: one walk that stops at the first limit broken and counts into a shared tally. */
module SchemaFitWalk {
  import opened SchemaStrip
  import opened SchemaMeaning
  import opened SchemaFit

  class Tally {
    var optional: nat
    var unions: nat

    constructor ()
      ensures optional == 0 && unions == 0
    {
      optional, unions := 0, 0;
    }
  }

  method OnlyScalars(values: seq<Json>) returns (ok: bool)
    ensures ok <==> forall i :: 0 <= i < |values| ==> !values[i].Obj? && !values[i].Arr?
  {
    for i := 0 to |values|
      invariant forall j :: 0 <= j < i ==> !values[j].Obj? && !values[j].Arr?
    {
      if values[i].Obj? || values[i].Arr? { return false; }
    }
    ok := true;
  }

  /** The limits on a node's own keywords. */
  method CheckHere(lib: Library, m: Fields) returns (ok: bool)
    ensures ok <==> FitsHere(lib, m)
  {
    if exists key :: key in m && !Structured(key) { return false; }
    if !FitsTexts(lib, m) { return false; }
    if "enum" in m && m["enum"].Arr? {
      var scalars := OnlyScalars(m["enum"].items);
      if !scalars { return false; }
    }
    if IsObject(m) && !("additionalProperties" in m && m["additionalProperties"] == Bool(false)) { return false; }
    ok := true;
    if "properties" in m && m["properties"].Obj? {
      var properties := m["properties"].fields;
      ok := forall name :: name in properties ==> properties[name].Obj? && Typed(properties[name].fields);
    }
  }

  lemma WeightsGrow(what: Counted, node: Json, key: string, names: set<string>, name: string)
    requires node.Obj? && key in node.fields && node.fields[key].Obj? && names <= node.fields[key].fields.Keys
    requires name in node.fields[key].fields && name !in names
    ensures Total(Weights(what, node, key, names + {name})) ==
            Total(Weights(what, node, key, names)) + Weight(what, node, key, name)
  {
    var m := Weights(what, node, key, names + {name});
    TotalWithout(m, name);
    assert m - {name} == Weights(what, node, key, names);
  }

  /** The walk over one node and everything below it. */
  method FitNode(lib: Library, node: Json, tally: Tally, depth: nat) returns (ok: bool)
    modifies tally
    ensures ok <==> Fits(lib, node, depth)
    ensures ok ==> tally.optional == old(tally.optional) + Count(Optional, node)
    ensures ok ==> tally.unions == old(tally.unions) + Count(Union, node)
    decreases node, 2
  {
    if depth > MAX_DEPTH { return false; }
    if !node.Obj? { return true; }
    ok := CheckHere(lib, node.fields);
    if !ok { return; }
    ok := FitNames(lib, node, "properties", tally, depth);
    if !ok { return; }
    ok := FitChild(lib, node, "items", tally, depth);
    if !ok { return; }
    ok := FitChild(lib, node, "additionalProperties", tally, depth);
    if !ok { return; }
    ok := FitList(lib, node, "anyOf", tally, depth);
    if !ok { return; }
    ok := FitList(lib, node, "allOf", tally, depth);
    if !ok { return; }
    ok := FitNames(lib, node, "$defs", tally, depth);
    if !ok { return; }
    ok := FitNames(lib, node, "definitions", tally, depth);
  }

  method FitChild(lib: Library, node: Json, key: string, tally: Tally, depth: nat) returns (ok: bool)
    requires node.Obj?
    modifies tally
    ensures ok <==> ChildFits(lib, node, key, depth)
    ensures ok ==> tally.optional == old(tally.optional) + CountChild(Optional, node, key)
    ensures ok ==> tally.unions == old(tally.unions) + CountChild(Union, node, key)
    decreases node, 1
  {
    ok := true;
    if key in node.fields && node.fields[key].Obj? { ok := FitNode(lib, node.fields[key], tally, depth + 1); }
  }

  ghost function Counts(what: Counted, items: seq<Json>): seq<nat> {
    seq(|items|, i requires 0 <= i < |items| => Count(what, items[i]))
  }

  lemma CountsGrow(what: Counted, items: seq<Json>, i: nat)
    requires i < |items|
    ensures Sum(Counts(what, items[..i + 1])) == Sum(Counts(what, items[..i])) + Count(what, items[i])
  {
    assert Counts(what, items[..i + 1])[..i] == Counts(what, items[..i]);
  }

  method FitList(lib: Library, node: Json, key: string, tally: Tally, depth: nat) returns (ok: bool)
    requires node.Obj?
    modifies tally
    ensures ok <==> ListFits(lib, node, key, depth)
    ensures ok ==> tally.optional == old(tally.optional) + CountList(Optional, node, key)
    ensures ok ==> tally.unions == old(tally.unions) + CountList(Union, node, key)
    decreases node, 1
  {
    if key !in node.fields || !node.fields[key].Arr? { return true; }
    var items := node.fields[key].items;
    for i := 0 to |items|
      invariant forall j :: 0 <= j < i ==> Fits(lib, items[j], depth + 1)
      invariant tally.optional == old(tally.optional) + Sum(Counts(Optional, items[..i]))
      invariant tally.unions == old(tally.unions) + Sum(Counts(Union, items[..i]))
    {
      ok := FitNode(lib, items[i], tally, depth + 1);
      if !ok { return; }
      CountsGrow(Optional, items, i);
      CountsGrow(Union, items, i);
    }
    assert items[..|items|] == items;
    ok := true;
  }

  /** What one named child adds. */
  ghost function Weight(what: Counted, node: Json, key: string, name: string): nat
    requires node.Obj? && key in node.fields && node.fields[key].Obj? && name in node.fields[key].fields
  {
    Weights(what, node, key, {name})[name]
  }

  method FitName(lib: Library, node: Json, key: string, name: string, tally: Tally, depth: nat) returns (ok: bool)
    requires node.Obj? && key in node.fields && node.fields[key].Obj? && name in node.fields[key].fields
    modifies tally
    ensures ok <==> Fits(lib, node.fields[key].fields[name], depth + 1)
    ensures ok ==> tally.optional == old(tally.optional) + Weight(Optional, node, key, name)
    ensures ok ==> tally.unions == old(tally.unions) + Weight(Union, node, key, name)
    decreases node, 0
  {
    var child := node.fields[key].fields[name];
    if key == "properties" {
      if !IsRequired(node.fields, name) { tally.optional := tally.optional + 1; }
      if child.Obj? && IsUnion(child.fields) { tally.unions := tally.unions + 1; }
    }
    ok := FitNode(lib, child, tally, depth + 1);
  }

  /** The children under names, in any order; for properties each one is also counted itself. */
  method FitNames(lib: Library, node: Json, key: string, tally: Tally, depth: nat) returns (ok: bool)
    requires node.Obj?
    modifies tally
    ensures ok <==> NamesFit(lib, node, key, depth)
    ensures ok ==> tally.optional == old(tally.optional) + CountNames(Optional, node, key)
    ensures ok ==> tally.unions == old(tally.unions) + CountNames(Union, node, key)
    decreases node, 1
  {
    if key !in node.fields || !node.fields[key].Obj? { return true; }
    var children := node.fields[key].fields;
    var todo := children.Keys;
    while todo != {}
      invariant todo <= children.Keys
      invariant forall name :: name in children.Keys - todo ==> Fits(lib, children[name], depth + 1)
      invariant tally.optional == old(tally.optional) + Total(Weights(Optional, node, key, children.Keys - todo))
      invariant tally.unions == old(tally.unions) + Total(Weights(Union, node, key, children.Keys - todo))
    {
      var name :| name in todo;
      ghost var done := children.Keys - todo;
      WeightsGrow(Optional, node, key, done, name);
      WeightsGrow(Union, node, key, done, name);
      ok := FitName(lib, node, key, name, tally, depth);
      if !ok { return; }
      todo := todo - {name};
      assert children.Keys - todo == done + {name};
    }
    assert children.Keys - todo == children.Keys;
    ok := true;
  }

  /** The whole check decides exactly the fit the theorem about rewriting asks for. */
  method CheckSchema(lib: Library, schema: Json) returns (ok: bool)
    ensures ok <==> SchemaFits(lib, schema)
  {
    var tally := new Tally();
    ok := FitNode(lib, schema, tally, 0);
    ok := ok && tally.optional <= MAX_OPTIONAL && tally.unions <= MAX_UNIONS;
  }
}
