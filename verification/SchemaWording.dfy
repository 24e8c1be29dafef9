/** Reading the worded limits of a rewritten schema back, and what they mean: nothing of a dropped bound is lost. */
module SchemaWording {
  import opened Wrappers
  import opened Digits
  import opened NumberText
  import opened Compact
  import opened SchemaStrip
  import opened SchemaForm
  import opened SchemaMeaning

  /** A limit as a reader finds it: the keyword it words, and the value, empty for uniqueItems. */
  datatype Limit = Limit(key: string, value: string)

  // ----- the reader -----

  /** Where the first space is, or the end. */
  function FirstSpace(s: string): (n: nat)
    ensures n <= |s|
  {
    if s == "" || s[0] == ' ' then 0 else 1 + FirstSpace(s[1..])
  }

  function Word(s: string): string { s[..FirstSpace(s)] }

  function After(s: string): string { s[FirstSpace(s)..] }

  /** One clause: how it compares, the value, and what is counted. */
  function ReadClause(s: string): Option<Limit> {
    if s == "unique items" then Some(Limit("uniqueItems", ""))
    else if "at least " <= s then
      var body := s[9..];
      match After(body)
      case "" => Some(Limit("minimum", Word(body)))
      case " characters" => Some(Limit("minLength", Word(body)))
      case " items" => Some(Limit("minItems", Word(body)))
      case " matching items" => Some(Limit("minContains", Word(body)))
      case " properties" => Some(Limit("minProperties", Word(body)))
      case _ => None
    else if "at most " <= s then
      var body := s[8..];
      match After(body)
      case "" => Some(Limit("maximum", Word(body)))
      case " characters" => Some(Limit("maxLength", Word(body)))
      case " items" => Some(Limit("maxItems", Word(body)))
      case " matching items" => Some(Limit("maxContains", Word(body)))
      case " properties" => Some(Limit("maxProperties", Word(body)))
      case _ => None
    else if "greater than " <= s then Some(Limit("exclusiveMinimum", s[13..]))
    else if "less than " <= s then Some(Limit("exclusiveMaximum", s[10..]))
    else if "a multiple of " <= s then Some(Limit("multipleOf", s[14..]))
    else None
  }

  function ReadClauses(pieces: seq<string>): seq<Option<Limit>> {
    seq(|pieces|, i requires 0 <= i < |pieces| => ReadClause(if i > 0 && pieces[i] != "" then pieces[i][1..] else pieces[i]))
  }

  /** The clauses after the last colon, without the space before them and the full stop after. */
  function ReadLimits(description: string): seq<Option<Limit>> {
    var pieces := Split(description, ':');
    var last := pieces[|pieces| - 1];
    if |last| < 2 then [] else ReadClauses(Split(last[1..|last| - 1], ';'))
  }

  // ----- clean texts -----

  predicate Free(s: string, c: char) { forall i :: 0 <= i < |s| ==> s[i] != c }

  /** Without the characters the reader splits at. */
  predicate Clean(s: string) { Free(s, ' ') && Free(s, ';') && Free(s, ':') }

  lemma CleanBoth(a: string, b: string)
    requires Clean(a) && Clean(b)
    ensures Clean(a + b)
  {
  }

  lemma DigitsAreClean(s: string)
    requires AllDigits(s)
    ensures Clean(s)
  {
    assert forall i :: 0 <= i < |s| ==> IsDigit(s[i]);
  }

  lemma ExponentIsClean(e: Exponent)
    requires e.Valid()
    ensures Clean(e.Render())
  {
    if e.Exponent? {
      DigitsAreClean(e.digits);
      CleanBoth([e.marker], e.sign);
      CleanBoth([e.marker] + e.sign, e.digits);
    }
  }

  lemma MantissaIsClean(p: Parts)
    requires p.Valid()
    ensures Clean(p.Mantissa())
  {
    DigitsAreClean(p.whole);
    DigitsAreClean(p.fraction);
    CleanBoth(".", p.fraction);
    CleanBoth(p.whole, "." + p.fraction);
  }

  lemma NumberIsClean(text: string)
    requires JsonNumber(text)
    ensures Clean(text)
  {
    var p: Parts :| p.Valid() && p.Render() == text;
    var sign := if p.negative then "-" else "";
    MantissaIsClean(p);
    ExponentIsClean(p.exponent);
    CleanBoth(sign, p.Mantissa());
    CleanBoth(sign + p.Mantissa(), p.exponent.Render());
  }

  lemma {:induction false} WordBefore(value: string, rest: string)
    requires Free(value, ' ') && (rest == "" || rest[0] == ' ')
    ensures Word(value + rest) == value && After(value + rest) == rest && FirstSpace(value + rest) == |value|
  {
    if value == "" {
      assert value + rest == rest;
    } else {
      assert (value + rest)[1..] == value[1..] + rest;
      WordBefore(value[1..], rest);
    }
  }

  // ----- every limit is read as what was worded -----

  lemma AtLeastRead(key: string, value: string, rest: string)
    requires Clean(value) && Worded(key, value) == "at least " + value + rest
    requires match key case "minimum" => rest == "" case "minLength" => rest == " characters" case "minItems" => rest == " items"
             case "minContains" => rest == " matching items" case "minProperties" => rest == " properties" case _ => false
    ensures ReadClause(Worded(key, value)) == Some(Limit(key, value))
  {
    var s := Worded(key, value);
    assert s[9..] == value + rest && s[0] == 'a' && "unique items"[0] == 'u';
    WordBefore(value, rest);
  }

  lemma AtMostRead(key: string, value: string, rest: string)
    requires Clean(value) && Worded(key, value) == "at most " + value + rest
    requires match key case "maximum" => rest == "" case "maxLength" => rest == " characters" case "maxItems" => rest == " items"
             case "maxContains" => rest == " matching items" case "maxProperties" => rest == " properties" case _ => false
    ensures ReadClause(Worded(key, value)) == Some(Limit(key, value))
  {
    var s := Worded(key, value);
    assert s[8..] == value + rest && s[0] == 'a' && "unique items"[0] == 'u' && s[3] == 'm' && "at least "[3] == 'l';
    WordBefore(value, rest);
  }

  lemma OtherRead(key: string, value: string)
    requires key == "exclusiveMinimum" || key == "exclusiveMaximum" || key == "multipleOf" || (key == "uniqueItems" && value == "")
    ensures ReadClause(Worded(key, value)) == Some(Limit(key, value))
  {
    var s := Worded(key, value);
    assert "at least "[1] == 't' && "at most "[1] == 't' && "greater than "[0] == 'g' && "less than "[0] == 'l' && "unique items"[0] == 'u';
    if key == "exclusiveMinimum" {
      assert s[0] == 'g' && s[13..] == value;
    } else if key == "exclusiveMaximum" {
      assert s[0] == 'l' && s[10..] == value;
    } else if key == "multipleOf" {
      assert s[0] == 'a' && s[1] == ' ' && s[14..] == value;
    }
  }

  predicate IsBound(key: string) { Rejected(key) || key == "minItems" }

  lemma ClauseIsRead(key: string, value: string)
    requires IsBound(key) && Clean(value) && (key == "uniqueItems" ==> value == "")
    ensures ReadClause(Worded(key, value)) == Some(Limit(key, value))
  {
    match key
    case "minimum" => assert "at least " + value + "" == "at least " + value; AtLeastRead(key, value, "");
    case "minLength" => AtLeastRead(key, value, " characters");
    case "minItems" => AtLeastRead(key, value, " items");
    case "minContains" => AtLeastRead(key, value, " matching items");
    case "minProperties" => AtLeastRead(key, value, " properties");
    case "maximum" => assert "at most " + value + "" == "at most " + value; AtMostRead(key, value, "");
    case "maxLength" => AtMostRead(key, value, " characters");
    case "maxItems" => AtMostRead(key, value, " items");
    case "maxContains" => AtMostRead(key, value, " matching items");
    case "maxProperties" => AtMostRead(key, value, " properties");
    case _ => OtherRead(key, value);
  }

  // ----- the whole description -----

  function Pieces(phrases: seq<string>): seq<string> {
    seq(|phrases|, i requires 0 <= i < |phrases| => if i == 0 then phrases[0] else " " + phrases[i])
  }

  lemma {:induction false} JoinedPieces(phrases: seq<string>)
    requires phrases != [] && forall i :: 0 <= i < |phrases| ==> Free(phrases[i], ';')
    ensures Split(Join(phrases), ';') == Pieces(phrases)
  {
    SplitPiece(phrases[0], ';');
    if |phrases| == 1 {
      assert Pieces(phrases) == [phrases[0]];
    } else {
      var rest := Join(phrases[1..]);
      JoinedPieces(phrases[1..]);
      assert Join(phrases) == phrases[0] + [';'] + (" " + rest);
      SplitJoined(phrases[0], ';', " " + rest);
      assert (" " + rest)[1..] == rest;
      assert Pieces(phrases) == [phrases[0]] + ([" " + Pieces(phrases[1..])[0]] + Pieces(phrases[1..])[1..]);
    }
  }

  lemma {:induction false} JoinedFree(phrases: seq<string>, c: char)
    requires c != ';' && c != ' ' && forall i :: 0 <= i < |phrases| ==> Free(phrases[i], c)
    ensures Free(Join(phrases), c)
  {
    if |phrases| > 1 {
      JoinedFree(phrases[1..], c);
      FreeBoth("; ", Join(phrases[1..]), c);
      FreeBoth(phrases[0], "; " + Join(phrases[1..]), c);
      assert Join(phrases) == phrases[0] + ("; " + Join(phrases[1..]));
    }
  }

  lemma FreeBoth(a: string, b: string, c: char)
    requires Free(a, c) && Free(b, c)
    ensures Free(a + b, c)
  {
  }

  lemma PiecesAreRead(phrases: seq<string>)
    ensures ReadClauses(Pieces(phrases)) == seq(|phrases|, i requires 0 <= i < |phrases| => ReadClause(phrases[i]))
  {
    hide ReadClause;
    forall i | 0 <= i < |phrases| ensures (if i > 0 && Pieces(phrases)[i] != "" then Pieces(phrases)[i][1..] else Pieces(phrases)[i]) == phrases[i] {
      assert (" " + phrases[i])[1..] == phrases[i];
    }
  }

  lemma DescriptionIsRead(existing: Option<Json>, phrases: seq<string>)
    requires phrases != [] && forall i :: 0 <= i < |phrases| ==> Free(phrases[i], ';') && Free(phrases[i], ':')
    ensures ReadLimits(Wording(existing, phrases)) == seq(|phrases|, i requires 0 <= i < |phrases| => ReadClause(phrases[i]))
  {
    hide Join, Pieces, ReadClause, ReadClauses, Free;
    var lead := if existing.Some? && existing.value.Str? && existing.value.chars != "" then existing.value.chars + " " else "";
    var last := " " + Join(phrases) + ".";
    assert Wording(existing, phrases) == (lead + "Limits") + [':'] + last;
    JoinedFree(phrases, ':');
    FreeBoth(" ", Join(phrases), ':');
    FreeBoth(" " + Join(phrases), ".", ':');
    SplitPiece(last, ':');
    SplitJoined(lead + "Limits", ':', last);
    assert last[1..|last| - 1] == Join(phrases);
    JoinedPieces(phrases);
    PiecesAreRead(phrases);
  }

  lemma {:induction false} ListedIsPhrase(lib: Library, bounds: seq<Bound>, original: Fields, stripped: Fields, p: string) returns (i: nat)
    requires p in Phrases(lib, bounds, original, stripped)
    ensures i < |bounds| && Phrase(lib, bounds[i], original, stripped) == Some(p)
  {
    var n := |bounds| - 1;
    if Phrase(lib, bounds[n], original, stripped) == Some(p) {
      i := n;
    } else {
      i := ListedIsPhrase(lib, bounds[..n], original, stripped, p);
    }
  }

  /** Every bound but uniqueItems is a number. */
  ghost predicate NumericBounds(m: Fields) {
    forall key :: key in m && IsBound(key) && key != "uniqueItems" ==> m[key].Num? && JsonNumber(m[key].text)
  }

  function ValueOf(m: Fields, key: string): string
    requires key in m
  {
    if m[key].Num? && key != "uniqueItems" then m[key].text else ""
  }

  lemma WordedClean(key: string, value: string)
    requires Clean(value)
    ensures Free(Worded(key, value), ';') && Free(Worded(key, value), ':')
  {
    CleanEnds("at least ", value, " characters");
    CleanEnds("at most ", value, " characters");
    CleanEnds("at least ", value, "");
    CleanEnds("at most ", value, "");
    CleanEnds("greater than ", value, "");
    CleanEnds("less than ", value, "");
    CleanEnds("a multiple of ", value, "");
    CleanEnds("at least ", value, " items");
    CleanEnds("at most ", value, " items");
    CleanEnds("at least ", value, " matching items");
    CleanEnds("at most ", value, " matching items");
    CleanEnds("at least ", value, " properties");
    CleanEnds("at most ", value, " properties");
  }

  lemma CleanEnds(a: string, value: string, b: string)
    requires Clean(value) && Free(a, ';') && Free(a, ':') && Free(b, ';') && Free(b, ':')
    ensures Free(a + value + b, ';') && Free(a + value + b, ':') && a + value + "" == a + value
  {
    FreeBoth(a, value, ';');
    FreeBoth(a, value, ':');
    FreeBoth(a + value, b, ';');
    FreeBoth(a + value, b, ':');
  }

  /** The i-th bound of the table, when worded, is read as itself. */
  lemma PhraseIsRead(lib: Library, m: Fields, stripped: Fields, i: nat)
    requires NumericBounds(m) && i < |BOUNDS| && Phrase(lib, BOUNDS[i], m, stripped).Some?
    ensures var p, key := Phrase(lib, BOUNDS[i], m, stripped).value, BOUNDS[i].key;
            Free(p, ';') && Free(p, ':') && key in m && ReadClause(p) == Some(Limit(key, ValueOf(m, key)))
  {
    var key := BOUNDS[i].key;
    PhraseIsWorded(lib, i, m, stripped);
    assert IsBound(key);
    var value := ValueOf(m, key);
    if key == "uniqueItems" {
      assert Clean(value);
    } else {
      NumberIsClean(m[key].text);
    }
    assert Worded(key, BoundValue(lib, m[key])) == Worded(key, value);
    WordedClean(key, value);
    ClauseIsRead(key, value);
  }

  /** The limits read from a rewritten node's description are exactly the bounds the rewriting dropped, each with its
      value; and nothing else is read there. */
  lemma LimitsAreRead(lib: Library, v: Json, limit: Option<Limit>)
    requires v.Obj? && NumericBounds(v.fields) && exists key :: key in v.fields && Limits(lib, v.fields, key)
    ensures var w := Strip(lib, v).fields; "description" in w && w["description"].Str?
    ensures limit in ReadLimits(Strip(lib, v).fields["description"].chars) <==>
            limit.Some? && limit.value.key in v.fields && Limits(lib, v.fields, limit.value.key) && limit.value.value == ValueOf(v.fields, limit.value.key)
  {
    var m, s := v.fields, StripFields(lib, v);
    var phrases := Phrases(lib, BOUNDS, m, s);
    var key :| key in m && Limits(lib, m, key);
    var at := BoundIndex(key);
    PhraseIsListed(lib, BOUNDS, m, s, at);
    DescriptionField(lib, v);
    forall i | 0 <= i < |phrases| ensures Free(phrases[i], ';') && Free(phrases[i], ':') {
      var k := ListedIsPhrase(lib, BOUNDS, m, s, phrases[i]);
      PhraseIsRead(lib, m, s, k);
    }
    DescriptionIsRead(Field(s, "description"), phrases);
    LimitsRead(lib, v, limit);
  }

  lemma LimitsRead(lib: Library, v: Json, limit: Option<Limit>)
    requires v.Obj? && NumericBounds(v.fields)
    ensures var phrases := Phrases(lib, BOUNDS, v.fields, StripFields(lib, v));
            limit in seq(|phrases|, i requires 0 <= i < |phrases| => ReadClause(phrases[i])) <==>
            limit.Some? && limit.value.key in v.fields && Limits(lib, v.fields, limit.value.key) && limit.value.value == ValueOf(v.fields, limit.value.key)
  {
    var m, s := v.fields, StripFields(lib, v);
    var phrases := Phrases(lib, BOUNDS, m, s);
    var found := seq(|phrases|, i requires 0 <= i < |phrases| => ReadClause(phrases[i]));
    if limit in found {
      var i :| 0 <= i < |phrases| && ReadClause(phrases[i]) == limit;
      var k := ListedIsPhrase(lib, BOUNDS, m, s, phrases[i]);
      PhraseIsRead(lib, m, s, k);
    }
    if limit.Some? && limit.value.key in m && Limits(lib, m, limit.value.key) && limit.value.value == ValueOf(m, limit.value.key) {
      var k := BoundIndex(limit.value.key);
      PhraseIsListed(lib, BOUNDS, m, s, k);
      PhraseIsRead(lib, m, s, k);
      var i :| 0 <= i < |phrases| && phrases[i] == Phrase(lib, BOUNDS[k], m, s).value;
      assert found[i] == limit;
    }
  }

  // ----- what the worded limits mean -----

  /** What the keyword with that value demands of an instance, by JSON Schema Validation 2020-12, sections 6.2 to 6.5;
      the two about contains are without meaning here. */
  ghost predicate Demanded(limit: Limit, x: Json) {
    var n := Denoted(limit.value);
    match limit.key
    case "minimum" => x.Num? ==> Denoted(x.text) >= n
    case "maximum" => x.Num? ==> Denoted(x.text) <= n
    case "exclusiveMinimum" => x.Num? ==> Denoted(x.text) > n
    case "exclusiveMaximum" => x.Num? ==> Denoted(x.text) < n
    case "multipleOf" => x.Num? && n > 0.0 ==> IsInteger(Denoted(x.text) / n)
    case "minLength" => x.Str? ==> |x.chars| as real >= n
    case "maxLength" => x.Str? ==> |x.chars| as real <= n
    case "minItems" => x.Arr? ==> |x.items| as real >= n
    case "maxItems" => x.Arr? ==> |x.items| as real <= n
    case "uniqueItems" => x.Arr? ==> forall i, j :: 0 <= i < j < |x.items| ==> !Equal(x.items[i], x.items[j])
    case "minProperties" => x.Obj? ==> |x.fields| as real >= n
    case "maxProperties" => x.Obj? ==> |x.fields| as real <= n
    case _ => true
  }

  /** The limit of the keyword, where the node has it. */
  ghost predicate DemandedAt(m: Fields, key: string, x: Json) {
    key in m ==> (m[key].Num? && key != "uniqueItems" ==> Demanded(Limit(key, m[key].text), x))
                 && (key == "uniqueItems" && m[key] == Bool(true) ==> Demanded(Limit(key, ""), x))
  }

  lemma NumberBounds(m: Fields, x: Json)
    ensures x.Num? ==> (BoundsOk(m, x) <==>
              && DemandedAt(m, "minimum", x) && DemandedAt(m, "maximum", x) && DemandedAt(m, "exclusiveMinimum", x)
              && DemandedAt(m, "exclusiveMaximum", x) && DemandedAt(m, "multipleOf", x))
    ensures !x.Num? ==>
              && DemandedAt(m, "minimum", x) && DemandedAt(m, "maximum", x) && DemandedAt(m, "exclusiveMinimum", x)
              && DemandedAt(m, "exclusiveMaximum", x) && DemandedAt(m, "multipleOf", x)
  {
  }

  lemma TextBounds(m: Fields, x: Json)
    ensures x.Str? ==> (BoundsOk(m, x) <==> DemandedAt(m, "minLength", x) && DemandedAt(m, "maxLength", x))
    ensures !x.Str? ==> DemandedAt(m, "minLength", x) && DemandedAt(m, "maxLength", x)
  {
  }

  lemma ListBounds(m: Fields, x: Json)
    ensures x.Arr? ==> (BoundsOk(m, x) <==> DemandedAt(m, "maxItems", x) && DemandedAt(m, "uniqueItems", x))
    ensures !x.Arr? ==> DemandedAt(m, "maxItems", x) && DemandedAt(m, "uniqueItems", x)
    ensures MinItemsOk(m, x) <==> DemandedAt(m, "minItems", x)
  {
  }

  lemma ObjectBounds(m: Fields, x: Json)
    ensures x.Obj? ==> (BoundsOk(m, x) <==> DemandedAt(m, "minProperties", x) && DemandedAt(m, "maxProperties", x))
    ensures !x.Obj? ==> DemandedAt(m, "minProperties", x) && DemandedAt(m, "maxProperties", x)
    ensures x.Null? || x.Bool? ==> BoundsOk(m, x)
  {
  }

  /** The keywords whose limits are not in the rewritten node. */
  predicate Unkept(lib: Library, m: Fields, key: string) { Rejected(key) || (key == "minItems" && key in m && Limits(lib, m, key)) }

  lemma BoundsByKeyword(lib: Library, m: Fields, x: Json, key: string)
    requires BoundsOk(m, x) && ("minItems" in m && Limits(lib, m, "minItems") ==> MinItemsOk(m, x)) && Unkept(lib, m, key)
    ensures DemandedAt(m, key, x)
  {
    hide BoundsOk, MinItemsOk, DemandedAt;
    NumberBounds(m, x);
    TextBounds(m, x);
    ListBounds(m, x);
    ObjectBounds(m, x);
    if key == "minContains" || key == "maxContains" { ContainsAt(m, key, x); }
  }

  lemma KeywordsBound(lib: Library, m: Fields, x: Json)
    requires forall key :: Unkept(lib, m, key) ==> DemandedAt(m, key, x)
    ensures BoundsOk(m, x) && ("minItems" in m && Limits(lib, m, "minItems") ==> MinItemsOk(m, x))
  {
    hide BoundsOk, MinItemsOk, DemandedAt, Limits;
    NumberBounds(m, x);
    TextBounds(m, x);
    ListBounds(m, x);
    ObjectBounds(m, x);
    assert Unkept(lib, m, "minimum") && Unkept(lib, m, "maximum") && Unkept(lib, m, "exclusiveMinimum") && Unkept(lib, m, "exclusiveMaximum");
    assert Unkept(lib, m, "multipleOf") && Unkept(lib, m, "minLength") && Unkept(lib, m, "maxLength") && Unkept(lib, m, "maxItems");
    assert Unkept(lib, m, "uniqueItems") && Unkept(lib, m, "minProperties") && Unkept(lib, m, "maxProperties");
    assert "minItems" in m && Limits(lib, m, "minItems") ==> Unkept(lib, m, "minItems");
  }

  /** The limits a node loses demand of an instance exactly what its dropped bounds did. */
  lemma LimitsDemand(lib: Library, m: Fields, x: Json)
    requires NumericBounds(m)
    ensures (forall key :: key in m && Limits(lib, m, key) ==> Demanded(Limit(key, ValueOf(m, key)), x)) <==>
            BoundsOk(m, x) && ("minItems" in m && Limits(lib, m, "minItems") ==> MinItemsOk(m, x))
  {
    hide BoundsOk, MinItemsOk, Demanded, DemandedAt, Rejected, Limits, NumericBounds, ValueOf;
    if forall key :: key in m && Limits(lib, m, key) ==> Demanded(Limit(key, ValueOf(m, key)), x) {
      forall key | Unkept(lib, m, key) ensures DemandedAt(m, key, x) { LimitAt(lib, m, x, key); }
      KeywordsBound(lib, m, x);
    }
    if BoundsOk(m, x) && ("minItems" in m && Limits(lib, m, "minItems") ==> MinItemsOk(m, x)) {
      forall key | key in m && Limits(lib, m, key) ensures Demanded(Limit(key, ValueOf(m, key)), x) {
        LimitIsUnkept(lib, m, key);
        BoundsByKeyword(lib, m, x, key);
        LimitAt(lib, m, x, key);
      }
    }
  }

  lemma LimitIsUnkept(lib: Library, m: Fields, key: string)
    requires key in m && Limits(lib, m, key)
    ensures Unkept(lib, m, key)
  {
  }

  lemma ContainsAt(m: Fields, key: string, x: Json)
    requires key == "minContains" || key == "maxContains"
    ensures DemandedAt(m, key, x)
  {
  }

  lemma LimitAt(lib: Library, m: Fields, x: Json, key: string)
    requires NumericBounds(m) && Unkept(lib, m, key)
    ensures (key in m && Limits(lib, m, key) ==> Demanded(Limit(key, ValueOf(m, key)), x)) <==> DemandedAt(m, key, x)
  {
    hide Demanded;
  }

  /** Nothing of the bounds is lost: an instance meets the bounds of the caller's node exactly when it meets the
      minItems that was kept and every limit read from the rewritten node's description. */
  lemma DroppedBoundsAreKept(lib: Library, v: Json, x: Json)
    requires v.Obj? && NumericBounds(v.fields) && exists key :: key in v.fields && Limits(lib, v.fields, key)
    ensures var w := Strip(lib, v).fields; "description" in w && w["description"].Str?
    ensures BoundsOk(v.fields, x) && MinItemsOk(v.fields, x) <==>
            && MinItemsOk(Strip(lib, v).fields, x)
            && forall limit :: Some(limit) in ReadLimits(Strip(lib, v).fields["description"].chars) ==> Demanded(limit, x)
  {
    hide Demanded, BoundsOk, ReadLimits;
    var m, w := v.fields, Strip(lib, v).fields;
    LimitsAreRead(lib, v, None);
    forall limit ensures Some(limit) in ReadLimits(w["description"].chars) <==> limit.key in m && Limits(lib, m, limit.key) && limit.value == ValueOf(m, limit.key) {
      LimitsAreRead(lib, v, Some(limit));
    }
    LimitsDemand(lib, m, x);
    KeptMinItems(lib, v, x);
    assert (forall key :: key in m && Limits(lib, m, key) ==> Demanded(Limit(key, ValueOf(m, key)), x)) <==>
           (forall limit :: Some(limit) in ReadLimits(w["description"].chars) ==> Demanded(limit, x)) by {
      if forall limit :: Some(limit) in ReadLimits(w["description"].chars) ==> Demanded(limit, x) {
        forall key | key in m && Limits(lib, m, key) ensures Demanded(Limit(key, ValueOf(m, key)), x) {
          assert Some(Limit(key, ValueOf(m, key))) in ReadLimits(w["description"].chars);
        }
      }
    }
  }

  lemma KeptMinItems(lib: Library, v: Json, x: Json)
    requires v.Obj?
    ensures var m, w := v.fields, Strip(lib, v).fields;
            MinItemsOk(w, x) <==> ("minItems" in m && Limits(lib, m, "minItems")) || MinItemsOk(m, x)
  {
    PlainField(lib, v, "minItems");
  }
}
