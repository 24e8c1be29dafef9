/** The cache key of a token request: the audience and the sorted, de-duplicated actions. */
module RequestKey {
  import opened Wrappers
  import opened Compact

  const MAX_AUDIENCE := 64
  const MAX_ACTIONS := 64
  const MAX_ACTION := 128

  predicate Printable(s: string) { forall i :: 0 <= i < |s| ==> ' ' < s[i] < '\U{7f}' }

  predicate Word(s: string, limit: nat) { 1 <= |s| <= limit && Printable(s) }

  predicate Valid(audience: string, scope: seq<string>) {
    && Word(audience, MAX_AUDIENCE) && |scope| <= MAX_ACTIONS
    && forall i :: 0 <= i < |scope| ==> Word(scope[i], MAX_ACTION)
  }

  // ----- the order of strings -----

  predicate Before(a: string, b: string) {
    b != "" && (a == "" || a[0] < b[0] || (a[0] == b[0] && Before(a[1..], b[1..])))
  }

  lemma {:induction false} BeforeIsTotal(a: string, b: string)
    ensures Before(a, b) ==> !Before(b, a) && a != b
    ensures Before(a, b) || Before(b, a) || a == b
  {
    if a != "" && b != "" {
      BeforeIsTotal(a[1..], b[1..]);
      assert a == [a[0]] + a[1..] && b == [b[0]] + b[1..];
    }
  }

  lemma {:induction false} BeforeIsTransitive(a: string, b: string, c: string)
    requires Before(a, b) && Before(b, c)
    ensures Before(a, c)
  {
    if a != "" && a[0] == b[0] == c[0] { BeforeIsTransitive(a[1..], b[1..], c[1..]); }
  }

  predicate Ascending(s: seq<string>) { forall i, j :: 0 <= i < j < |s| ==> Before(s[i], s[j]) }

  // ----- sorted without duplicates -----

  ghost function Members(s: seq<string>): set<string> { set i | 0 <= i < |s| :: s[i] }

  function Insert(x: string, s: seq<string>): seq<string> {
    if s == [] then [x]
    else if x == s[0] then s
    else if Before(x, s[0]) then [x] + s
    else [s[0]] + Insert(x, s[1..])
  }

  lemma {:induction false} InsertAscends(x: string, s: seq<string>)
    requires Ascending(s)
    ensures Ascending(Insert(x, s)) && forall y :: y in Insert(x, s) <==> y == x || y in s
  {
    if s != [] && x != s[0] {
      if Before(x, s[0]) {
        forall j | 0 < j < |s| ensures Before(x, s[j]) { BeforeIsTransitive(x, s[0], s[j]); }
      } else {
        BeforeIsTotal(x, s[0]);
        InsertAscends(x, s[1..]);
        assert s == [s[0]] + s[1..];
        forall y | y in Insert(x, s[1..]) ensures Before(s[0], y) {
          if y != x { var j :| 0 <= j < |s[1..]| && s[1..][j] == y; assert s[j + 1] == y; }
        }
      }
    }
  }

  /** The scope sorted and without repeats. */
  function Actions(scope: seq<string>): seq<string> {
    if scope == [] then [] else Insert(scope[0], Actions(scope[1..]))
  }

  lemma {:induction false} ActionsAscend(scope: seq<string>)
    ensures Ascending(Actions(scope)) && forall y :: y in Actions(scope) <==> y in scope
  {
    if scope != [] {
      ActionsAscend(scope[1..]);
      InsertAscends(scope[0], Actions(scope[1..]));
      assert scope == [scope[0]] + scope[1..];
    }
  }

  lemma TailWithoutFirst(a: seq<string>)
    requires Ascending(a) && a != []
    ensures forall y :: y in a[1..] <==> y in a && y != a[0]
  {
    assert a == [a[0]] + a[1..];
    forall y | y in a[1..] ensures y != a[0] {
      var i :| 0 <= i < |a[1..]| && a[1..][i] == y;
      assert Before(a[0], a[i + 1]);
      BeforeIsTotal(a[0], y);
    }
  }

  /** An ascending list is determined by its elements. */
  lemma {:induction false} AscendingIsUnique(a: seq<string>, b: seq<string>)
    requires Ascending(a) && Ascending(b) && forall y :: y in a <==> y in b
    ensures a == b
  {
    assert a != [] ==> a[0] in b;
    assert b != [] ==> b[0] in a;
    if a != [] && b != [] {
      FirstIsLeast(a, b);
      FirstIsLeast(b, a);
      BeforeIsTotal(a[0], b[0]);
      assert a == [a[0]] + a[1..] && b == [b[0]] + b[1..];
      TailWithoutFirst(a);
      TailWithoutFirst(b);
      AscendingIsUnique(a[1..], b[1..]);
    }
  }

  lemma FirstIsLeast(a: seq<string>, b: seq<string>)
    requires Ascending(a) && a != [] && b != [] && b[0] in a
    ensures a[0] == b[0] || Before(a[0], b[0])
  {
    var i :| 0 <= i < |a| && a[i] == b[0];
  }

  // ----- the key -----

  function Join(words: seq<string>): string {
    if words == [] then "" else if |words| == 1 then words[0] else words[0] + " " + Join(words[1..])
  }

  /** The key and the actions sent, or none for a refused request. */
  function RequestKey(audience: string, scope: seq<string>): Option<(string, seq<string>)> {
    if Valid(audience, scope) then Some((audience + " " + Join(Actions(scope)), Actions(scope))) else None
  }

  /** One to limit characters, each above the space and below the delete character. */
  predicate Shown(s: string, limit: nat) { 0 < |s| <= limit && forall i :: 0 <= i < |s| ==> 32 < s[i] as int < 127 }

  /** A request is refused exactly when the audience is not 1 to 64 printable characters, there are more than 64
      actions, or an action is not 1 to 128 printable characters; and what is sent is the scope, sorted, each action
      once. */
  lemma RequestExactly(audience: string, scope: seq<string>)
    ensures RequestKey(audience, scope).Some? <==>
            Shown(audience, 64) && |scope| <= 64 && forall i :: 0 <= i < |scope| ==> Shown(scope[i], 128)
    ensures RequestKey(audience, scope).Some? ==>
            var actions := RequestKey(audience, scope).value.1; Ascending(actions) && forall y :: y in actions <==> y in scope
  {
    ActionsAscend(scope);
    WordIsShown(audience, 64);
    forall i | 0 <= i < |scope| ensures Word(scope[i], 128) <==> Shown(scope[i], 128) { WordIsShown(scope[i], 128); }
  }

  lemma WordIsShown(s: string, limit: nat)
    ensures Word(s, limit) <==> Shown(s, limit)
  {
    assert ' ' as int == 32 && '\U{7f}' as int == 127;
  }

  lemma SplitWord(word: string, rest: string)
    requires Printable(word)
    ensures Split(word + " " + rest, ' ') == [word] + Split(rest, ' ')
    ensures Split(word, ' ') == [word]
  {
    SplitPiece(word, ' ');
    SplitJoined(word, ' ', rest);
  }

  lemma {:induction false} SplitJoin(words: seq<string>)
    requires forall i :: 0 <= i < |words| ==> Printable(words[i])
    ensures Split(Join(words), ' ') == if words == [] then [""] else words
  {
    if words != [] {
      var rest := if |words| == 1 then "" else Join(words[1..]);
      SplitWord(words[0], rest);
      if |words| > 1 { SplitJoin(words[1..]); }
    }
  }

  lemma KeySplits(audience: string, scope: seq<string>)
    requires Valid(audience, scope)
    ensures Split(RequestKey(audience, scope).value.0, ' ') ==
            [audience] + if scope == [] then [""] else Actions(scope)
  {
    ActionsAscend(scope);
    forall i | 0 <= i < |Actions(scope)| ensures Printable(Actions(scope)[i]) {
      assert Actions(scope)[i] in scope;
    }
    SplitWord(audience, Join(Actions(scope)));
    SplitJoin(Actions(scope));
    if scope != [] { assert scope[0] in Actions(scope); }
  }

  /** Two requests share a slot exactly when they name the same audience and the same set of actions, whatever
      the order and the repeats; then they also send the same actions. */
  lemma KeysAgree(a: string, s: seq<string>, b: string, t: seq<string>)
    requires Valid(a, s) && Valid(b, t)
    ensures RequestKey(a, s).value.0 == RequestKey(b, t).value.0 <==> a == b && Members(s) == Members(t)
    ensures RequestKey(a, s).value.0 == RequestKey(b, t).value.0 ==> RequestKey(a, s) == RequestKey(b, t)
  {
    KeySplits(a, s);
    KeySplits(b, t);
    ActionsAscend(s);
    ActionsAscend(t);
    var x, y := Actions(s), Actions(t);
    assert forall w :: w in Members(s) <==> w in x;
    assert forall w :: w in Members(t) <==> w in y;
    if a == b && Members(s) == Members(t) {
      AscendingIsUnique(x, y);
    }
    if RequestKey(a, s).value.0 == RequestKey(b, t).value.0 {
      var p := Split(RequestKey(a, s).value.0, ' ');
      assert p[0] == a == b;
      SameActions(s, t, p[1..]);
    }
  }

  /** No action is empty, so the lone empty piece of an empty scope stands for nothing else. */
  lemma SameActions(s: seq<string>, t: seq<string>, pieces: seq<string>)
    requires forall w :: w in s || w in t ==> w != ""
    requires pieces == if s == [] then [""] else Actions(s)
    requires pieces == if t == [] then [""] else Actions(t)
    ensures Actions(s) == Actions(t)
  {
    ActionsAscend(s);
    ActionsAscend(t);
    assert "" !in Actions(s) && "" !in Actions(t);
    assert s == [] || t == [] ==> "" in pieces;
  }
}
