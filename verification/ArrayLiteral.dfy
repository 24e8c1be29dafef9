/** The array literal of a query parameter: its encoder against the parser that reads a doubled quote as one. */
module ArrayLiteral {
  import opened Wrappers

  predicate Safe(s: string) { forall i :: 0 <= i < |s| ==> s[i] != '\\' }

  function Quoted(s: string): string {
    if s == "" then "" else (if s[0] == '\'' then "''" else [s[0]]) + Quoted(s[1..])
  }

  function Element(s: string): string { "'" + Quoted(s) + "'" }

  function Join(elements: seq<string>): string {
    if elements == [] then "" else if |elements| == 1 then elements[0] else elements[0] + "," + Join(elements[1..])
  }

  function Elements(values: seq<string>): seq<string> {
    seq(|values|, i requires 0 <= i < |values| => Element(values[i]))
  }

  /** The literal of a list, whatever its strings hold. */
  function Literal(values: seq<string>): string {
    "[" + Join(Elements(values)) + "]"
  }

  /** The encoder: it fails exactly on a backslash. */
  method Encode(values: seq<string>) returns (r: Option<string>)
    ensures r.None? <==> exists i, k :: 0 <= i < |values| && 0 <= k < |values[i]| && values[i][k] == '\\'
    ensures r.Some? ==> r.value == Literal(values)
  {
    var encoded := new string[|values|];
    for i := 0 to |values|
      invariant forall j :: 0 <= j < i ==> Safe(values[j]) && encoded[j] == Element(values[j])
    {
      if exists k :: 0 <= k < |values[i]| && values[i][k] == '\\' { return None; }
      encoded[i] := Element(values[i]);
    }
    assert encoded[..] == Elements(values);
    r := Some("[" + Join(encoded[..]) + "]");
  }

  // ----- the parser -----

  /** The text of a quoted string and what follows its closing quote; the opening quote is consumed. */
  function ReadQuoted(s: string): (r: Option<(string, string)>)
    ensures r.Some? ==> |r.value.1| < |s|
  {
    if s == "" then None
    else if s[0] != '\'' then Prefixed(s[0], ReadQuoted(s[1..]))
    else if |s| > 1 && s[1] == '\'' then Prefixed('\'', ReadQuoted(s[2..]))
    else Some(("", s[1..]))
  }

  function Prefixed(c: char, r: Option<(string, string)>): Option<(string, string)> {
    match r
    case Some((text, rest)) => Some(([c] + text, rest))
    case None => None
  }

  /** One or more elements up to the closing bracket, which ends the text. */
  function ReadElements(s: string): Option<seq<string>>
    decreases |s|
  {
    if s == "" || s[0] != '\'' then None
    else
      var element := ReadQuoted(s[1..]);
      if element.None? then None
      else
        var (text, rest) := element.value;
        if rest == "]" then Some([text])
        else if rest == "" || rest[0] != ',' then None
        else
          var more := ReadElements(rest[1..]);
          if more.None? then None else Some([text] + more.value)
  }

  function Parse(s: string): Option<seq<string>> {
    if s == "" || s[0] != '[' then None
    else if s == "[]" then Some([])
    else ReadElements(s[1..])
  }

  // ----- the round trip -----

  predicate Unquoted(rest: string) { rest == "" || rest[0] != '\'' }

  /** Reading a quoted text and its closing quote, and nothing else, reads that text. */
  lemma {:induction false} ReadsText(text: string, rest: string)
    requires Unquoted(rest)
    ensures ReadQuoted(Quoted(text) + "'" + rest) == Some((text, rest))
  {
    var s := Quoted(text) + "'" + rest;
    if text == "" {
      assert s[1..] == rest;
    } else {
      ReadsText(text[1..], rest);
      var n := if text[0] == '\'' then 2 else 1;
      assert s[n..] == Quoted(text[1..]) + "'" + rest;
      assert text == [text[0]] + text[1..];
    }
  }

  lemma {:induction false} ReadTextIs(s: string)
    requires ReadQuoted(s).Some?
    ensures var (text, rest) := ReadQuoted(s).value; Unquoted(rest) && s == Quoted(text) + "'" + rest
  {
    if s[0] != '\'' {
      ReadTextIs(s[1..]);
      var text := ReadQuoted(s[1..]).value.0;
      assert ([s[0]] + text)[1..] == text;
    } else if |s| > 1 && s[1] == '\'' {
      ReadTextIs(s[2..]);
      var text := ReadQuoted(s[2..]).value.0;
      assert (['\''] + text)[1..] == text;
      assert s == "''" + s[2..];
    } else {
      assert s == "'" + s[1..];
    }
  }

  lemma JoinElements(values: seq<string>)
    requires values != []
    ensures Join(Elements(values)) == Element(values[0]) + if |values| == 1 then "" else "," + Join(Elements(values[1..]))
  {
    assert Elements(values)[1..] == Elements(values[1..]);
  }

  lemma {:induction false} ReadsElements(values: seq<string>)
    requires values != []
    ensures ReadElements(Join(Elements(values)) + "]") == Some(values)
  {
    JoinElements(values);
    var s := Join(Elements(values)) + "]";
    var rest := if |values| == 1 then "]" else "," + Join(Elements(values[1..])) + "]";
    assert s[1..] == Quoted(values[0]) + "'" + rest;
    ReadsText(values[0], rest);
    if |values| > 1 {
      ReadsElements(values[1..]);
      assert rest[1..] == Join(Elements(values[1..])) + "]";
      assert values == [values[0]] + values[1..];
    } else {
      assert values == [values[0]];
    }
  }

  lemma {:induction false} ReadElementsAre(s: string)
    requires ReadElements(s).Some?
    ensures var values := ReadElements(s).value; values != [] && s == Join(Elements(values)) + "]"
    decreases |s|
  {
    var (text, rest) := ReadQuoted(s[1..]).value;
    var values := ReadElements(s).value;
    ReadTextIs(s[1..]);
    assert s == Element(text) + rest;
    JoinElements(values);
    if rest != "]" {
      ReadElementsAre(rest[1..]);
      assert values[1..] == ReadElements(rest[1..]).value;
    }
  }

  /** A text is the literal of a list exactly when it parses to that list. */
  lemma ParseIsInverse(s: string, values: seq<string>)
    ensures s == Literal(values) <==> Parse(s) == Some(values)
  {
    if s == Literal(values) {
      if values == [] {
        assert s == "[]";
      } else {
        ReadsElements(values);
        JoinElements(values);
        assert s[1..] == Join(Elements(values)) + "]";
      }
    }
    if Parse(s) == Some(values) {
      if values == [] {
        assert s != "[]" ==> ReadElements(s[1..]) == Some(values);
      }
      if s != "[]" { ReadElementsAre(s[1..]); }
      assert s == "[" + s[1..];
    }
  }

  /** Distinct lists never share a literal. */
  lemma LiteralIsInjective(a: seq<string>, b: seq<string>)
    requires Literal(a) == Literal(b)
    ensures a == b
  {
    ParseIsInverse(Literal(a), a);
    ParseIsInverse(Literal(b), b);
  }
}
