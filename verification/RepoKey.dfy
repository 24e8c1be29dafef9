/** The canonical repository key: the unrolled pattern against the rule on slash-separated segments. */
module RepoKey {
  import opened Compact

  const MAX_SEGMENTS := 20
  const MAX_BYTES := 255

  // ----- the pattern -----

  datatype CharClass = Alnum | AlnumDot | NameChar | Slash | Star {
    predicate Has(c: char) {
      match this
      case Alnum => IsAlnum(c)
      case AlnumDot => IsAlnum(c) || c == '.'
      case NameChar => IsAlnum(c) || c == '.' || c == '_' || c == '-'
      case Slash => c == '/'
      case Star => c == '*'
    }
  }

  predicate IsAlnum(c: char) { 'a' <= c <= 'z' || '0' <= c <= '9' }

  /** The fragment of RE2 the pattern uses; UpTo is a class repeated zero to n times. */
  datatype Regex =
    | Empty
    | One(chars: CharClass)
    | UpTo(chars: CharClass, n: nat)
    | Seq(first: Regex, second: Regex)
    | Alt(left: Regex, right: Regex)
    | Opt(inner: Regex)

  predicate All(chars: CharClass, s: string) { forall i :: 0 <= i < |s| ==> chars.Has(s[i]) }

  /** The whole text matches. */
  predicate Matches(r: Regex, s: string) {
    match r
    case Empty => s == ""
    case One(chars) => |s| == 1 && chars.Has(s[0])
    case UpTo(chars, n) => |s| <= n && All(chars, s)
    case Seq(a, b) => exists i :: 0 <= i <= |s| && Matches(a, s[..i]) && Matches(b, s[i..])
    case Alt(a, b) => Matches(a, s) || Matches(b, s)
    case Opt(a) => s == "" || Matches(a, s)
  }

  const TAIL := Seq(UpTo(NameChar, 98), One(Alnum))
  const GROUP := Seq(One(Alnum), Opt(TAIL))
  const LAST := Alt(One(Alnum), Seq(One(AlnumDot), TAIL))

  function Nest(n: nat): Regex {
    if n == 0 then Empty else Opt(Seq(One(Slash), Seq(GROUP, Nest(n - 1))))
  }

  const BODY := Seq(Seq(GROUP, Nest(MAX_SEGMENTS - 2)), Seq(One(Slash), LAST))

  /** The pattern built from the inside out. */
  method Body() returns (r: Regex)
    ensures r == BODY
  {
    var nest := Empty;
    for i := 0 to MAX_SEGMENTS - 2
      invariant nest == Nest(i)
    {
      nest := Opt(Seq(One(Slash), Seq(GROUP, nest)));
    }
    r := Seq(Seq(GROUP, nest), Seq(One(Slash), LAST));
  }

  predicate ValidSlug(key: string) { |key| <= MAX_BYTES && Matches(BODY, key) }

  predicate Valid(key: string) { |key| <= MAX_BYTES && Matches(Alt(BODY, One(Star)), key) }

  // ----- the rule -----

  /** 1 to 100 name characters, the first and the last alphanumeric. */
  predicate GroupName(s: string) {
    1 <= |s| <= 100 && All(NameChar, s) && IsAlnum(s[0]) && IsAlnum(s[|s| - 1])
  }

  /** As a group name, but it may start with a dot when more follows. */
  predicate LastName(s: string) {
    1 <= |s| <= 100 && All(NameChar, s) && (IsAlnum(s[0]) || (s[0] == '.' && |s| > 1)) && IsAlnum(s[|s| - 1])
  }

  predicate GroupNames(segments: seq<string>) { forall i :: 0 <= i < |segments| ==> GroupName(segments[i]) }

  predicate IsPath(key: string) {
    var segments := Split(key, '/');
    var n := |segments| - 1;
    2 <= |segments| <= MAX_SEGMENTS && GroupNames(segments[..n]) && LastName(segments[n])
  }

  // ----- names -----

  lemma SeqSplits(a: Regex, b: Regex, s: string, t: string)
    requires Matches(a, s) && Matches(b, t)
    ensures Matches(Seq(a, b), s + t)
  {
    assert (s + t)[..|s|] == s && (s + t)[|s|..] == t;
  }

  lemma SeqUnfolds(a: Regex, b: Regex, s: string) returns (i: nat)
    requires Matches(Seq(a, b), s)
    ensures i <= |s| && Matches(a, s[..i]) && Matches(b, s[i..])
  {
    i :| 0 <= i <= |s| && Matches(a, s[..i]) && Matches(b, s[i..]);
  }

  lemma OneAndUpTo(chars: CharClass, n: nat, s: string)
    ensures Matches(One(chars), s) <==> |s| == 1 && chars.Has(s[0])
    ensures Matches(UpTo(chars, n), s) <==> |s| <= n && All(chars, s)
  {
  }

  /** Up to 98 name characters and an alphanumeric one. */
  lemma TailMeaning(s: string)
    ensures Matches(TAIL, s) <==> 1 <= |s| <= 99 && All(NameChar, s) && IsAlnum(s[|s| - 1])
  {
    hide Matches;
    if Matches(TAIL, s) {
      var i := SeqUnfolds(UpTo(NameChar, 98), One(Alnum), s);
      OneAndUpTo(NameChar, 98, s[..i]);
      OneAndUpTo(Alnum, 0, s[i..]);
      assert i == |s| - 1 && s[i..][0] == s[i];
      assert forall j :: 0 <= j < i ==> s[..i][j] == s[j];
    }
    if 1 <= |s| <= 99 && All(NameChar, s) && IsAlnum(s[|s| - 1]) {
      var n := |s| - 1;
      assert s == s[..n] + s[n..];
      OneAndUpTo(NameChar, 98, s[..n]);
      OneAndUpTo(Alnum, 0, s[n..]);
      SeqSplits(UpTo(NameChar, 98), One(Alnum), s[..n], s[n..]);
    }
  }

  /** A first character of a class and a tail. */
  lemma HeadAndTail(chars: CharClass, s: string)
    ensures Matches(Seq(One(chars), TAIL), s) <==>
            2 <= |s| <= 100 && chars.Has(s[0]) && All(NameChar, s[1..]) && IsAlnum(s[|s| - 1])
  {
    if Matches(Seq(One(chars), TAIL), s) {
      var i :| 0 <= i <= |s| && Matches(One(chars), s[..i]) && Matches(TAIL, s[i..]);
      TailMeaning(s[i..]);
    }
    if 2 <= |s| <= 100 && chars.Has(s[0]) && All(NameChar, s[1..]) && IsAlnum(s[|s| - 1]) {
      TailMeaning(s[1..]);
      assert s == s[..1] + s[1..];
      SeqSplits(One(chars), TAIL, s[..1], s[1..]);
    }
  }

  lemma AllFromTail(s: string)
    requires s != ""
    ensures All(NameChar, s) <==> NameChar.Has(s[0]) && All(NameChar, s[1..])
  {
    assert forall i :: 1 <= i < |s| ==> s[i] == s[1..][i - 1];
  }

  lemma GroupMeaning(s: string)
    ensures Matches(GROUP, s) <==> GroupName(s)
  {
    HeadAndTail(Alnum, s);
    if s != "" { AllFromTail(s); }
    if Matches(GROUP, s) {
      var i :| 0 <= i <= |s| && Matches(One(Alnum), s[..i]) && Matches(Opt(TAIL), s[i..]);
      assert s[i..] != "" ==> Matches(Seq(One(Alnum), TAIL), s);
    }
    if GroupName(s) {
      if |s| == 1 {
        assert s == s + "";
        SeqSplits(One(Alnum), Opt(TAIL), s, "");
      } else {
        var i :| 0 <= i <= |s| && Matches(One(Alnum), s[..i]) && Matches(TAIL, s[i..]);
        assert Matches(Opt(TAIL), s[i..]);
      }
    }
  }

  lemma LastMeaning(s: string)
    ensures Matches(LAST, s) <==> LastName(s)
  {
    HeadAndTail(AlnumDot, s);
    if s != "" { AllFromTail(s); }
  }

  // ----- the nest -----

  lemma NoSlash(s: string)
    requires All(NameChar, s)
    ensures forall i :: 0 <= i < |s| ==> s[i] != '/'
  {
  }

  /** Slash-led groups, at most n of them. */
  predicate SlashedGroups(n: nat, s: string) {
    s == "" || (s[0] == '/' && |Split(s[1..], '/')| <= n && GroupNames(Split(s[1..], '/')))
  }

  /** A non-empty match of the nest is a slash, a group and a match of the nest inside. */
  lemma NestUnfolds(n: nat, s: string) returns (j: nat)
    requires n > 0 && s != "" && Matches(Nest(n), s)
    ensures s[0] == '/' && 1 <= j <= |s| && GroupName(s[1..j]) && Matches(Nest(n - 1), s[j..])
  {
    var step := Seq(GROUP, Nest(n - 1));
    assert Nest(n) == Opt(Seq(One(Slash), step));
    assert Matches(Seq(One(Slash), step), s);
    var i :| 0 <= i <= |s| && Matches(One(Slash), s[..i]) && Matches(step, s[i..]);
    assert i == 1 && s[..1][0] == s[0];
    var t := s[1..];
    assert Matches(step, t);
    var k :| 0 <= k <= |t| && Matches(GROUP, t[..k]) && Matches(Nest(n - 1), t[k..]);
    GroupMeaning(t[..k]);
    j := k + 1;
    assert s[1..j] == t[..k] && s[j..] == t[k..];
  }

  lemma NestFolds(n: nat, s: string, g: string, rest: string)
    requires n > 0 && s == "/" + g + rest && GroupName(g) && Matches(Nest(n - 1), rest)
    ensures Matches(Nest(n), s)
  {
    GroupMeaning(g);
    SeqSplits(GROUP, Nest(n - 1), g, rest);
    SeqSplits(One(Slash), Seq(GROUP, Nest(n - 1)), "/", g + rest);
    assert s == "/" + (g + rest);
    assert Matches(Seq(One(Slash), Seq(GROUP, Nest(n - 1))), s);
  }

  /** Groups between slashes are a group and slash-led groups. */
  lemma GroupsSplit(n: nat, a: string) returns (g: string, nest: string)
    requires |Split(a, '/')| <= n && GroupNames(Split(a, '/'))
    ensures n > 0 && a == g + nest && GroupName(g) && SlashedGroups(n - 1, nest)
  {
    var u;
    g, u := FirstPiece(a, '/');
    nest := a[|g|..];
    if nest != "" {
      assert nest[1..] == u;
      assert forall i :: 0 <= i < |Split(u, '/')| ==> Split(u, '/')[i] == Split(a, '/')[i + 1];
    }
  }

  lemma {:induction false} NestMeaning(n: nat, s: string)
    ensures Matches(Nest(n), s) <==> SlashedGroups(n, s)
  {
    if n > 0 && s != "" {
      if Matches(Nest(n), s) {
        var j := NestUnfolds(n, s);
        NestMeaning(n - 1, s[j..]);
        GroupThenGroups(n, s[1..j], s[j..]);
        assert s[1..] == s[1..j] + s[j..];
      }
      if SlashedGroups(n, s) {
        var g, rest := GroupsSplit(n, s[1..]);
        NestMeaning(n - 1, rest);
        assert s == "/" + g + rest;
        NestFolds(n, s, g, rest);
      }
    }
  }

  /** The pieces of a group followed by slash-led groups. */
  lemma GroupThenGroups(n: nat, g: string, t: string)
    requires n > 0 && GroupName(g) && SlashedGroups(n - 1, t)
    ensures |Split(g + t, '/')| <= n && GroupNames(Split(g + t, '/'))
  {
    NoSlash(g);
    SplitPiece(g, '/');
    if t == "" {
      assert g + t == g;
    } else {
      SplitJoined(g, '/', t[1..]);
      assert g + t == g + ['/'] + t[1..];
    }
  }

  // ----- the key -----

  /** A body match is a group, slash-led groups, a slash and a last name. */
  lemma BodyUnfolds(s: string) returns (i: nat, j: nat)
    requires Matches(BODY, s)
    ensures i <= j < |s| && GroupName(s[..i]) && SlashedGroups(MAX_SEGMENTS - 2, s[i..j]) && s[j] == '/' && LastName(s[j + 1..])
  {
    hide Matches, Nest, GroupName, LastName, SlashedGroups;
    var k := SeqUnfolds(Seq(GROUP, Nest(MAX_SEGMENTS - 2)), Seq(One(Slash), LAST), s);
    var a, b := s[..k], s[k..];
    var m := SeqUnfolds(GROUP, Nest(MAX_SEGMENTS - 2), a);
    var q := SeqUnfolds(One(Slash), LAST, b);
    OneAndUpTo(Slash, 0, b[..q]);
    GroupMeaning(a[..m]);
    NestMeaning(MAX_SEGMENTS - 2, a[m..]);
    LastMeaning(b[q..]);
    i, j := m, k;
    assert q == 1 && b[..1][0] == s[j];
    assert s[..i] == a[..m] && s[i..j] == a[m..] && s[j + 1..] == b[1..];
  }

  lemma BodyFolds(g: string, nest: string, l: string)
    requires GroupName(g) && SlashedGroups(MAX_SEGMENTS - 2, nest) && LastName(l)
    ensures Matches(BODY, g + nest + ("/" + l))
  {
    GroupMeaning(g);
    NestMeaning(MAX_SEGMENTS - 2, nest);
    LastMeaning(l);
    SeqSplits(GROUP, Nest(MAX_SEGMENTS - 2), g, nest);
    SeqSplits(One(Slash), LAST, "/", l);
    SeqSplits(Seq(GROUP, Nest(MAX_SEGMENTS - 2)), Seq(One(Slash), LAST), g + nest, "/" + l);
  }

  lemma BodyIsPath(s: string)
    requires Matches(BODY, s)
    ensures IsPath(s)
  {
    var i, j := BodyUnfolds(s);
    var a, l := s[..j], s[j + 1..];
    GroupThenGroups(MAX_SEGMENTS - 1, s[..i], s[i..j]);
    assert a == s[..i] + s[i..j] && s == a + ['/'] + l;
    NoSlash(l);
    SplitPiece(l, '/');
    SplitJoined(a, '/', l);
    assert Split(s, '/')[..|Split(s, '/')| - 1] == Split(a, '/');
  }

  lemma PathIsBody(s: string)
    requires IsPath(s)
    ensures Matches(BODY, s)
  {
    var segments := Split(s, '/');
    var a, l := LastPiece(s, '/');
    assert segments[..|segments| - 1] == Split(a, '/');
    var g, nest := GroupsSplit(MAX_SEGMENTS - 1, a);
    assert s == g + nest + ("/" + l);
    BodyFolds(g, nest, l);
  }

  /** The pattern accepts exactly the keys of 2 to 20 segments, valid group names before a valid last name. */
  lemma PatternMeaning(s: string)
    ensures Matches(BODY, s) <==> IsPath(s)
  {
    if Matches(BODY, s) { BodyIsPath(s); }
    if IsPath(s) { PathIsBody(s); }
  }

  // ----- the rule, character by character -----

  predicate LetterOrDigit(c: char) { 'a' <= c <= 'z' || '0' <= c <= '9' }

  /** A segment of 1 to 100 lower-case letters, digits, dots, underscores and hyphens that ends with a letter or digit
      and starts with one, or, as the last segment, with a dot that is not alone. */
  predicate Segment(s: string, last: bool) {
    && 1 <= |s| <= 100 && LetterOrDigit(s[|s| - 1]) && (LetterOrDigit(s[0]) || (last && s[0] == '.' && |s| > 1))
    && forall i :: 0 <= i < |s| ==> LetterOrDigit(s[i]) || s[i] == '.' || s[i] == '_' || s[i] == '-'
  }

  /** A key of 2 to 20 segments between slashes. */
  predicate Segmented(key: string) {
    var segments := Split(key, '/');
    2 <= |segments| <= 20 && forall i :: 0 <= i < |segments| ==> Segment(segments[i], i == |segments| - 1)
  }

  lemma SegmentMeaning(s: string)
    ensures GroupName(s) <==> Segment(s, false)
    ensures LastName(s) <==> Segment(s, true)
  {
    assert forall c :: IsAlnum(c) <==> LetterOrDigit(c);
  }

  lemma PathMeaning(key: string)
    ensures IsPath(key) <==> Segmented(key)
  {
    hide GroupName, LastName, Segment, Split;
    forall s ensures (GroupName(s) <==> Segment(s, false)) && (LastName(s) <==> Segment(s, true)) { SegmentMeaning(s); }
    var segments := Split(key, '/');
    assert forall i :: 0 <= i < |segments| - 1 ==> segments[..|segments| - 1][i] == segments[i];
  }

  /** A valid slug is a segmented key of at most 255 characters, and a valid key is one or the wildcard. */
  lemma ValidMeaning(key: string)
    ensures ValidSlug(key) <==> |key| <= 255 && Segmented(key)
    ensures Valid(key) <==> (|key| <= 255 && Segmented(key)) || key == "*"
  {
    hide IsPath, Segmented;
    PatternMeaning(key);
    PathMeaning(key);
    assert Matches(One(Star), key) <==> key == "*";
    assert Valid(key) <==> |key| <= MAX_BYTES && (Matches(BODY, key) || Matches(One(Star), key));
  }
}
