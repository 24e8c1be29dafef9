/** The compact serialization of section 7.1 of RFC 7515: dot-separated base64url segments. */
module Compact {

  /** The pieces of s between the separators; a string without one is its own single piece. */
  function Split(s: string, sep: char): (parts: seq<string>)
    ensures parts != []
  {
    if s == "" then [""]
    else
      var rest := Split(s[1..], sep);
      if s[0] == sep then [""] + rest else [[s[0]] + rest[0]] + rest[1..]
  }

  predicate Base64Url(c: char) {
    'A' <= c <= 'Z' || 'a' <= c <= 'z' || '0' <= c <= '9' || c == '-' || c == '_'
  }

  predicate Alphabet(s: string) { forall i :: 0 <= i < |s| ==> Base64Url(s[i]) }

  /** The white space strings.TrimSpace removes. */
  predicate IsSpace(c: char) {
    || c == ' ' || '\t' <= c <= '\r' || c == '\U{85}' || c == '\U{A0}' || c == '\U{1680}'
    || '\U{2000}' <= c <= '\U{200a}' || c == '\U{2028}' || c == '\U{2029}' || c == '\U{202f}' || c == '\U{205f}' || c == '\U{3000}'
  }

  predicate Trimmed(s: string) {
    s == "" || (!IsSpace(s[0]) && !IsSpace(s[|s| - 1]))
  }

  lemma SplitStep(a: string, sep: char, b: string, front: seq<string>, back: seq<string>)
    requires a != "" && front != [] && Split(a[1..], sep) == front
    requires Split((a + [sep] + b)[1..], sep) == front + back
    ensures Split(a + [sep] + b, sep) == Split(a, sep) + back
  {
    assert (front + back)[0] == front[0] && (front + back)[1..] == front[1..] + back;
    assert (a + [sep] + b)[0] == a[0];
  }

  /** The pieces of two texts joined by the separator are the pieces of both. */
  lemma {:induction false} SplitJoined(a: string, sep: char, b: string)
    ensures Split(a + [sep] + b, sep) == Split(a, sep) + Split(b, sep)
  {
    if a == "" {
      assert (a + [sep] + b)[1..] == b;
    } else {
      SplitJoined(a[1..], sep, b);
      assert (a + [sep] + b)[1..] == a[1..] + [sep] + b;
      SplitStep(a, sep, b, Split(a[1..], sep), Split(b, sep));
    }
  }

  /** A text without the separator is its own piece. */
  lemma {:induction false} SplitPiece(s: string, sep: char)
    requires forall i :: 0 <= i < |s| ==> s[i] != sep
    ensures Split(s, sep) == [s]
  {
    if s != "" {
      SplitPiece(s[1..], sep);
      assert s == [s[0]] + s[1..];
    }
  }

  /** The first piece, and what follows its separator if there is one. */
  lemma {:induction false} FirstPiece(s: string, sep: char) returns (piece: string, rest: string)
    ensures piece == Split(s, sep)[0] && piece <= s
    ensures if s == piece then |Split(s, sep)| == 1
            else s[|piece|..] == [sep] + rest && Split(s, sep) == [piece] + Split(rest, sep)
  {
    piece, rest := "", "";
    if s != "" && s[0] == sep {
      rest := s[1..];
    } else if s != "" {
      var p, r := FirstPiece(s[1..], sep);
      piece, rest := [s[0]] + p, r;
      assert s[|piece|..] == s[1..][|p|..];
    }
  }

  /** The last piece, and what stands before its separator. */
  lemma {:induction false} LastPiece(s: string, sep: char) returns (front: string, piece: string)
    requires |Split(s, sep)| > 1
    ensures s == front + [sep] + piece && Split(s, sep) == Split(front, sep) + [piece]
    decreases |s|
  {
    var first, rest := FirstPiece(s, sep);
    SplitPieceOf(s, sep);
    if |Split(rest, sep)| == 1 {
      var p, _ := FirstPiece(rest, sep);
      front, piece := first, rest;
    } else {
      var f, p := LastPiece(rest, sep);
      front, piece := first + [sep] + f, p;
      SplitJoined(first, sep, f);
    }
    assert s == first + s[|first|..];
  }

  /** The first piece has no separator. */
  lemma {:induction false} SplitPieceOf(s: string, sep: char)
    ensures Split(Split(s, sep)[0], sep) == [Split(s, sep)[0]]
  {
    if s != "" && s[0] != sep {
      SplitPieceOf(s[1..], sep);
      var p := Split(s[1..], sep)[0];
      assert ([s[0]] + p)[1..] == p;
    }
  }

  /** Every character of s is a separator or stands in a piece. */
  lemma {:induction false} SplitAlphabet(s: string, sep: char)
    requires forall i :: 0 <= i < |Split(s, sep)| ==> Alphabet(Split(s, sep)[i])
    ensures forall i :: 0 <= i < |s| ==> s[i] == sep || Base64Url(s[i])
  {
    if s != "" {
      var parts, rest := Split(s, sep), Split(s[1..], sep);
      forall i | 0 <= i < |rest| ensures Alphabet(rest[i]) {
        if s[0] == sep {
          assert rest[i] == parts[i + 1];
        } else if i == 0 {
          assert forall j :: 0 <= j < |rest[0]| ==> rest[0][j] == parts[0][j + 1];
        } else {
          assert rest[i] == parts[i];
        }
      }
      SplitAlphabet(s[1..], sep);
      if s[0] != sep { assert parts[0][0] == s[0]; }
      assert forall i :: 1 <= i < |s| ==> s[i] == s[1..][i - 1];
    }
  }

  lemma AlphabetIsTrimmed(s: string)
    requires forall i :: 0 <= i < |Split(s, '.')| ==> Alphabet(Split(s, '.')[i])
    ensures Trimmed(s)
  {
    SplitAlphabet(s, '.');
  }
}
