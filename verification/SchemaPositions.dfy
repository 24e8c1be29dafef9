/** The fit check by positions: what it demands of the node at every position, and which properties it counts. */
module SchemaPositions {
  import opened Wrappers
  import opened SchemaStrip
  import opened SchemaMeaning
  import opened SchemaFit

  /** One step down a schema: to a named schema, to the one schema of a keyword, or to one of a list. */
  datatype Step = To(key: string, name: string) | Into(key: string) | Nth(key: string, i: nat)

  type Path = seq<Step>

  function Child(node: Json, step: Step): Option<Json> {
    if !node.Obj? || step.key !in node.fields then None
    else
      var v := node.fields[step.key];
      match step
      case To(key, name) =>
        if key in ["properties", "$defs", "definitions"] && v.Obj? && name in v.fields then Some(v.fields[name]) else None
      case Into(key) => if key in ["items", "additionalProperties"] && v.Obj? then Some(v) else None
      case Nth(key, i) => if key in ["anyOf", "allOf"] && v.Arr? && i < |v.items| then Some(v.items[i]) else None
  }

  function At(node: Json, path: Path): Option<Json> {
    if path == [] then Some(node)
    else
      var child := Child(node, path[0]);
      if child.None? then None else At(child.value, path[1..])
  }

  /** What a counted property is: one its object does not require, or one that is a union. */
  predicate Counts(what: Counted, parent: Json, step: Step) {
    && parent.Obj? && step.To? && step.key == "properties" && Child(parent, step).Some?
    && match what
       case Optional =>
         !("required" in parent.fields && parent.fields["required"].Arr? && Str(step.name) in parent.fields["required"].items)
       case Union =>
         var p := Child(parent, step).value;
         p.Obj? && ("anyOf" in p.fields || ("type" in p.fields && p.fields["type"].Arr?))
  }

  /** The path leads to a counted property. */
  predicate Position(what: Counted, node: Json, path: Path) {
    if path == [] then false
    else if |path| == 1 then Counts(what, node, path[0])
    else Child(node, path[0]).Some? && Position(what, Child(node, path[0]).value, path[1..])
  }

  lemma OwnCounts(what: Counted, node: Json, name: string)
    requires Child(node, To("properties", name)).Some?
    ensures Own(what, node.fields, name, Child(node, To("properties", name)).value) == if Counts(what, node, To("properties", name)) then 1 else 0
  {
  }

  // ----- sets of paths -----

  ghost function Under(step: Step, paths: set<Path>): set<Path> { set p | p in paths :: [step] + p }

  lemma {:induction false} UnderSize(step: Step, paths: set<Path>)
    ensures |Under(step, paths)| == |paths|
    ensures forall p :: p in Under(step, paths) <==> p != [] && p[0] == step && p[1..] in paths
    decreases |paths|
  {
    forall p | p != [] && p[0] == step && p[1..] in paths ensures p in Under(step, paths) { assert p == [step] + p[1..]; }
    if paths != {} {
      var p :| p in paths;
      UnderSize(step, paths - {p});
      assert Under(step, paths) == Under(step, paths - {p}) + {[step] + p};
      assert [step] + p !in Under(step, paths - {p}) by { assert ([step] + p)[1..] == p; }
    }
  }

  /** The counted paths of a node that go down the given first steps. */
  ghost predicate Exactly(what: Counted, node: Json, paths: set<Path>, first: Step -> bool) {
    forall p :: p in paths <==> p != [] && first(p[0]) && Position(what, node, p)
  }

  lemma Disjoint(a: set<Path>, b: set<Path>)
    requires a !! b
    ensures |a + b| == |a| + |b|
  {
  }

  /** The counted paths through one step, given those of the node it leads to. */
  lemma ThroughStep(what: Counted, node: Json, step: Step, inner: set<Path>) returns (paths: set<Path>)
    requires Child(node, step).Some? && forall p :: p in inner <==> Position(what, Child(node, step).value, p)
    ensures Exactly(what, node, paths, (s: Step) => s == step)
    ensures |paths| == |inner| + if Counts(what, node, step) then 1 else 0
  {
    UnderSize(step, inner);
    paths := Under(step, inner) + if Counts(what, node, step) then {[step]} else {};
    forall p ensures p in paths <==> p != [] && p[0] == step && Position(what, node, p) {
      if p != [] && p[0] == step && |p| == 1 { assert p == [step] && p[1..] == []; }
    }
    if Counts(what, node, step) {
      assert [step] !in Under(step, inner) by { assert [step][1..] == []; }
      Disjoint(Under(step, inner), {[step]});
    }
  }

  lemma Joined(what: Counted, node: Json, a: set<Path>, f: Step -> bool, b: set<Path>, g: Step -> bool) returns (paths: set<Path>)
    requires Exactly(what, node, a, f) && Exactly(what, node, b, g) && forall s :: !(f(s) && g(s))
    ensures Exactly(what, node, paths, (s: Step) => f(s) || g(s)) && |paths| == |a| + |b|
  {
    paths := a + b;
    assert a !! b;
  }

  // ----- the counts are sizes -----

  lemma {:induction false} NamePaths(what: Counted, node: Json, key: string, names: set<string>) returns (paths: set<Path>)
    requires key in ["properties", "$defs", "definitions"]
    requires node.Obj? && key in node.fields && node.fields[key].Obj? && names <= node.fields[key].fields.Keys
    ensures Exactly(what, node, paths, (s: Step) => s.To? && s.key == key && s.name in names)
    ensures |paths| == Total(Weights(what, node, key, names))
    decreases node, 1, |names|
  {
    paths := {};
    if names != {} {
      var name :| name in names;
      var rest := names - {name};
      var before := NamePaths(what, node, key, rest);
      var child := node.fields[key].fields[name];
      var inner := CountedPaths(what, child);
      var through := ThroughStep(what, node, To(key, name), inner);
      paths := Joined(what, node, before, (s: Step) => s.To? && s.key == key && s.name in rest, through, (s: Step) => s == To(key, name));
      assert Weights(what, node, key, names) - {name} == Weights(what, node, key, rest);
      TotalWithout(Weights(what, node, key, names), name);
      if key == "properties" { OwnCounts(what, node, name); }
    }
  }

  lemma {:induction false} ListPaths(what: Counted, node: Json, key: string, n: nat) returns (paths: set<Path>)
    requires key in ["anyOf", "allOf"] && node.Obj? && key in node.fields && node.fields[key].Arr? && n <= |node.fields[key].items|
    ensures Exactly(what, node, paths, (s: Step) => s.Nth? && s.key == key && s.i < n)
    ensures |paths| == Sum(seq(n, i requires 0 <= i < n => Count(what, node.fields[key].items[i])))
    decreases node, 1, n
  {
    paths := {};
    if n > 0 {
      var before := ListPaths(what, node, key, n - 1);
      var inner := CountedPaths(what, node.fields[key].items[n - 1]);
      var through := ThroughStep(what, node, Nth(key, n - 1), inner);
      paths := Joined(what, node, before, (s: Step) => s.Nth? && s.key == key && s.i < n - 1, through, (s: Step) => s == Nth(key, n - 1));
      var counts := seq(n, i requires 0 <= i < n => Count(what, node.fields[key].items[i]));
      assert counts[..n - 1] == seq(n - 1, i requires 0 <= i < n - 1 => Count(what, node.fields[key].items[i]));
    }
  }

  /** The counted paths that go down through one keyword, of any kind. */
  lemma {:induction false} KeyPaths(what: Counted, node: Json, key: string) returns (paths: set<Path>)
    requires node.Obj? && key in ["properties", "$defs", "definitions", "items", "additionalProperties", "anyOf", "allOf"]
    ensures Through(what, node, paths, {key})
    ensures |paths| == if key in ["properties", "$defs", "definitions"] then CountNames(what, node, key)
                       else if key in ["items", "additionalProperties"] then CountChild(what, node, key) else CountList(what, node, key)
    decreases node, 2, 0
  {
    paths := {};
    if key in node.fields {
      var v := node.fields[key];
      if key in ["properties", "$defs", "definitions"] && v.Obj? {
        paths := NamePaths(what, node, key, v.fields.Keys);
      } else if key in ["items", "additionalProperties"] && v.Obj? {
        var inner := CountedPaths(what, v);
        paths := ThroughStep(what, node, Into(key), inner);
      } else if key in ["anyOf", "allOf"] && v.Arr? {
        paths := ListPaths(what, node, key, |v.items|);
      }
    }
  }

  /** The counted paths of a node whose first step goes through one of the keywords. */
  ghost predicate Through(what: Counted, node: Json, paths: set<Path>, keys: set<string>) {
    forall p: Path :: p in paths <==> p != [] && p[0].key in keys && Position(what, node, p)
  }

  lemma JoinedKeys(what: Counted, node: Json, a: set<Path>, f: set<string>, b: set<Path>, g: set<string>)
    requires Through(what, node, a, f) && Through(what, node, b, g) && f !! g
    ensures Through(what, node, a + b, f + g) && |a + b| == |a| + |b|
  {
    hide Position;
    assert a !! b;
  }

  lemma {:induction false} NamingPaths(what: Counted, node: Json) returns (paths: set<Path>)
    requires node.Obj?
    ensures Through(what, node, paths, {"properties", "$defs", "definitions"})
    ensures |paths| == CountNames(what, node, "properties") + CountNames(what, node, "$defs") + CountNames(what, node, "definitions")
    decreases node, 3, 0
  {
    hide Through, Count, CountNames, Position;
    paths := KeyPaths(what, node, "properties");
    var more := KeyPaths(what, node, "$defs");
    JoinedKeys(what, node, paths, {"properties"}, more, {"$defs"});
    paths := paths + more;
    more := KeyPaths(what, node, "definitions");
    JoinedKeys(what, node, paths, {"properties"} + {"$defs"}, more, {"definitions"});
    paths := paths + more;
    assert {"properties"} + {"$defs"} + {"definitions"} == {"properties", "$defs", "definitions"};
  }

  lemma {:induction false} SinglePaths(what: Counted, node: Json) returns (paths: set<Path>)
    requires node.Obj?
    ensures Through(what, node, paths, {"items", "additionalProperties"})
    ensures |paths| == CountChild(what, node, "items") + CountChild(what, node, "additionalProperties")
    decreases node, 3, 0
  {
    hide Through, Count, CountChild, Position;
    paths := KeyPaths(what, node, "items");
    var more := KeyPaths(what, node, "additionalProperties");
    JoinedKeys(what, node, paths, {"items"}, more, {"additionalProperties"});
    paths := paths + more;
    assert {"items"} + {"additionalProperties"} == {"items", "additionalProperties"};
  }

  lemma {:induction false} ListedPaths(what: Counted, node: Json) returns (paths: set<Path>)
    requires node.Obj?
    ensures Through(what, node, paths, {"anyOf", "allOf"})
    ensures |paths| == CountList(what, node, "anyOf") + CountList(what, node, "allOf")
    decreases node, 3, 0
  {
    hide Through, Count, CountList, Position;
    paths := KeyPaths(what, node, "anyOf");
    var more := KeyPaths(what, node, "allOf");
    JoinedKeys(what, node, paths, {"anyOf"}, more, {"allOf"});
    paths := paths + more;
    assert {"anyOf"} + {"allOf"} == {"anyOf", "allOf"};
  }

  /** The count of a node is the number of paths to counted properties below it. */
  lemma {:induction false} CountedPaths(what: Counted, node: Json) returns (paths: set<Path>)
    ensures forall p :: p in paths <==> Position(what, node, p)
    ensures |paths| == Count(what, node)
    decreases node, 4, 0
  {
    paths := {};
    if node.Obj? {
      hide Through, CountNames, CountChild, CountList, Position;
      var a := NamingPaths(what, node);
      var b := SinglePaths(what, node);
      var c := ListedPaths(what, node);
      JoinedKeys(what, node, a, {"properties", "$defs", "definitions"}, b, {"items", "additionalProperties"});
      JoinedKeys(what, node, a + b, {"properties", "$defs", "definitions"} + {"items", "additionalProperties"}, c, {"anyOf", "allOf"});
      paths := a + b + c;
      AllKeys(what, node, paths);
    }
  }

  lemma AllKeys(what: Counted, node: Json, paths: set<Path>)
    requires Through(what, node, paths, {"properties", "$defs", "definitions"} + {"items", "additionalProperties"} + {"anyOf", "allOf"})
    ensures forall p :: p in paths <==> Position(what, node, p)
  {
  }

  // ----- the whole check -----

  const KEYWORDS := [
    "type", "properties", "required", "additionalProperties", "items", "enum", "const", "anyOf", "allOf", "$ref", "$defs", "definitions",
    "description", "title", "default", "examples", "format", "minItems", "pattern", "$schema", "$id", "$comment"]

  /** What the check demands of a node, whatever it is. */
  ghost predicate NodeFits(lib: Library, node: Json) {
    node.Obj? ==>
      var m := node.fields;
      && (forall key :: key in m ==> key in KEYWORDS)
      && ("$ref" in m && m["$ref"].Str? ==> "#" <= m["$ref"].chars)
      && ("format" in m && m["format"].Str? ==>
            m["format"].chars in ["date-time", "time", "date", "duration", "email", "hostname", "uri", "ipv4", "ipv6", "uuid"])
      && ("pattern" in m && m["pattern"].Str? ==> !lib.unsupportedPattern(m["pattern"].chars))
      && ("enum" in m && m["enum"].Arr? ==> forall value :: value in m["enum"].items ==> !value.Obj? && !value.Arr?)
      && (("type" in m && m["type"] == Str("object")) || ("properties" in m && m["properties"] != Null) ==>
            "additionalProperties" in m && m["additionalProperties"] == Bool(false))
      && ("properties" in m && m["properties"].Obj? ==> forall name :: name in m["properties"].fields ==> TypedBy(m["properties"].fields[name]))
  }

  lemma StructuredIsKeyword(key: string)
    ensures Structured(key) <==> key in KEYWORDS
  {
  }

  lemma KnownIsListed(format: string)
    ensures KnownFormat(format) <==> format in ["date-time", "time", "date", "duration", "email", "hostname", "uri", "ipv4", "ipv6", "uuid"]
  {
  }

  predicate TypedBy(p: Json) { p.Obj? && exists key :: key in p.fields && key in ["type", "anyOf", "allOf", "enum", "const", "$ref"] }

  lemma TypedIsListed(m: Fields)
    ensures Typed(m) <==> TypedBy(Obj(m))
  {
    if Typed(m) {
      var key := if "type" in m then "type" else if "anyOf" in m then "anyOf" else if "allOf" in m then "allOf" else if "enum" in m then "enum" else if "const" in m then "const" else "$ref";
      assert key in Obj(m).fields && key in ["type", "anyOf", "allOf", "enum", "const", "$ref"];
    }
  }

  lemma FitsHereMeaning(lib: Library, m: Fields)
    ensures FitsHere(lib, m) <==> NodeFits(lib, Obj(m))
  {
    hide Structured, KnownFormat, Typed, TypedBy;
    forall key ensures Structured(key) <==> key in KEYWORDS { StructuredIsKeyword(key); }
    if "format" in m && m["format"].Str? { KnownIsListed(m["format"].chars); }
    NamedTyped(m);
  }

  lemma NamedTyped(m: Fields)
    ensures (forall name :: Named(m, name) ==> m["properties"].fields[name].Obj? && Typed(m["properties"].fields[name].fields)) <==>
            ("properties" in m && m["properties"].Obj? ==> forall name :: name in m["properties"].fields ==> TypedBy(m["properties"].fields[name]))
  {
    hide Typed, TypedBy;
    forall name | Named(m, name) && m["properties"].fields[name].Obj?
      ensures Typed(m["properties"].fields[name].fields) <==> TypedBy(m["properties"].fields[name])
    {
      TypedIsListed(m["properties"].fields[name].fields);
    }
    forall name | Named(m, name) && !m["properties"].fields[name].Obj? ensures !TypedBy(m["properties"].fields[name]) { Untyped(m["properties"].fields[name]); }
    if "properties" in m && m["properties"].Obj? {
      assert forall name :: name in m["properties"].fields <==> Named(m, name);
    }
  }

  lemma Untyped(p: Json)
    requires !p.Obj?
    ensures !TypedBy(p)
  {
  }

  /** A fitting node's children fit one level down. */
  lemma ChildOfFitting(lib: Library, node: Json, depth: nat, step: Step)
    requires Fits(lib, node, depth) && Child(node, step).Some?
    ensures Fits(lib, Child(node, step).value, depth + 1)
  {
    assert NamesFit(lib, node, "properties", depth) && NamesFit(lib, node, "$defs", depth) && NamesFit(lib, node, "definitions", depth);
    assert ListFits(lib, node, "anyOf", depth) && ListFits(lib, node, "allOf", depth);
  }

  lemma {:induction false} FitsAt(lib: Library, node: Json, depth: nat, path: Path)
    requires Fits(lib, node, depth) && At(node, path).Some?
    ensures depth + |path| <= 64 && NodeFits(lib, At(node, path).value)
    decreases |path|
  {
    if path == [] {
      if node.Obj? { FitsHereMeaning(lib, node.fields); }
    } else {
      ChildOfFitting(lib, node, depth, path[0]);
      FitsAt(lib, Child(node, path[0]).value, depth + 1, path[1..]);
    }
  }

  /** Every position is at most 64 deep and its node keeps the limits. */
  ghost predicate FitsByPosition(lib: Library, node: Json, depth: nat) {
    forall path :: At(node, path).Some? ==> depth + |path| <= 64 && NodeFits(lib, At(node, path).value)
  }

  lemma ChildByPosition(lib: Library, node: Json, depth: nat, step: Step)
    requires FitsByPosition(lib, node, depth) && Child(node, step).Some?
    ensures FitsByPosition(lib, Child(node, step).value, depth + 1)
  {
    var child := Child(node, step).value;
    forall path | At(child, path).Some? ensures depth + 1 + |path| <= 64 && NodeFits(lib, At(child, path).value) {
      var longer := [step] + path;
      assert longer[0] == step && longer[1..] == path;
      assert At(node, longer) == At(child, path);
    }
  }

  lemma {:induction false} FitsFrom(lib: Library, node: Json, depth: nat)
    requires FitsByPosition(lib, node, depth)
    ensures Fits(lib, node, depth)
    decreases node, 1
  {
    assert At(node, []) == Some(node);
    if node.Obj? {
      FitsHereMeaning(lib, node.fields);
      NamesFrom(lib, node, depth, "properties");
      NamesFrom(lib, node, depth, "$defs");
      NamesFrom(lib, node, depth, "definitions");
      ChildFrom(lib, node, depth, "items");
      ChildFrom(lib, node, depth, "additionalProperties");
      ListFrom(lib, node, depth, "anyOf");
      ListFrom(lib, node, depth, "allOf");
    }
  }

  lemma {:induction false} NamesFrom(lib: Library, node: Json, depth: nat, key: string)
    requires FitsByPosition(lib, node, depth) && node.Obj? && key in ["properties", "$defs", "definitions"]
    ensures NamesFit(lib, node, key, depth)
    decreases node, 0
  {
    if key in node.fields && node.fields[key].Obj? {
      forall name | name in node.fields[key].fields ensures Fits(lib, node.fields[key].fields[name], depth + 1) {
        ChildByPosition(lib, node, depth, To(key, name));
        FitsFrom(lib, node.fields[key].fields[name], depth + 1);
      }
    }
  }

  lemma {:induction false} ChildFrom(lib: Library, node: Json, depth: nat, key: string)
    requires FitsByPosition(lib, node, depth) && node.Obj? && key in ["items", "additionalProperties"]
    ensures ChildFits(lib, node, key, depth)
    decreases node, 0
  {
    if key in node.fields && node.fields[key].Obj? {
      ChildByPosition(lib, node, depth, Into(key));
      FitsFrom(lib, node.fields[key], depth + 1);
    }
  }

  lemma {:induction false} ListFrom(lib: Library, node: Json, depth: nat, key: string)
    requires FitsByPosition(lib, node, depth) && node.Obj? && key in ["anyOf", "allOf"]
    ensures ListFits(lib, node, key, depth)
    decreases node, 0
  {
    if key in node.fields && node.fields[key].Arr? {
      forall i | 0 <= i < |node.fields[key].items| ensures Fits(lib, node.fields[key].items[i], depth + 1) {
        ChildByPosition(lib, node, depth, Nth(key, i));
        FitsFrom(lib, node.fields[key].items[i], depth + 1);
      }
    }
  }

  /** A schema passes the fit check exactly when every position is at most 64 deep and keeps the limits on a node, at
      most 24 property positions are not required and at most 16 are unions. */
  lemma FitsExactly(lib: Library, schema: Json) returns (optional: set<Path>, unions: set<Path>)
    ensures forall path :: path in optional <==> Position(Optional, schema, path)
    ensures forall path :: path in unions <==> Position(Union, schema, path)
    ensures SchemaFits(lib, schema) <==> FitsByPosition(lib, schema, 0) && |optional| <= 24 && |unions| <= 16
  {
    hide Position, At, NodeFits, Fits, Count;
    optional := CountedPaths(Optional, schema);
    unions := CountedPaths(Union, schema);
    if FitsByPosition(lib, schema, 0) { FitsFrom(lib, schema, 0); }
    if Fits(lib, schema, 0) {
      forall path | At(schema, path).Some? ensures |path| <= 64 && NodeFits(lib, At(schema, path).value) { FitsAt(lib, schema, 0, path); }
    }
  }
}
