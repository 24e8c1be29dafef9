/** The two token-stream walks that refuse a document with a repeated member name: the key-set reader's scan,
    which compares names under case folding at any depth, and the decision reader's walk, which compares them
    exactly and bounds the nesting. Both are proved against one meaning on document trees. */
module StrictJson {
  import opened Wrappers
  import opened JsonDoc

  /** The tokens a JSON decoder hands out. The decoder matches brackets and drops commas and colons itself. */
  datatype Token =
    | OpenObject | OpenArray | Close
    | Text(chars: string)
    | NumberText(digits: string)
    | Truth(value: bool)
    | Nothing

  /** What follows the last token: nothing but white space, or text that is no JSON, which may or may not look like
      another element to a decoder that peeks at one character. */
  datatype End = Eof | Broken(more: bool)

  function Tokens(d: Doc): (ts: seq<Token>)
    ensures ts != [] && ts[0] != Close
    decreases d, 0
  {
    match d
    case Array(items) => [OpenArray] + ItemTokens(items) + [Close]
    case Object(members) => [OpenObject] + MemberTokens(members) + [Close]
    case String(chars) => [Text(chars)]
    case Number(text) => [NumberText(text)]
    case Bool(value) => [Truth(value)]
    case Null => [Nothing]
  }

  function ItemTokens(items: seq<Doc>): seq<Token>
    decreases items, 1
  {
    if items == [] then [] else Tokens(items[0]) + ItemTokens(items[1..])
  }

  function MemberTokens(members: seq<Member>): seq<Token>
    decreases members, 1
  {
    if members == [] then [] else [Text(members[0].name)] + Tokens(members[0].value) + MemberTokens(members[1..])
  }

  datatype Limit = Unlimited | Levels(n: int) {
    function Below(): Limit { if Unlimited? then this else Levels(n - 1) }
    predicate Spent() { Levels? && n < 0 }
  }

  /** How a walk compares names, which number texts its decoder can hold in a float64, and how deep it goes. */
  datatype Rule = Rule(fold: string -> string, fits: string -> bool, limit: Limit) {
    function Below(): Rule { this.(limit := limit.Below()) }
  }

  // ----- the meaning on trees -----

  predicate DistinctUnder(fold: string -> string, members: seq<Member>) {
    forall i, j :: 0 <= i < j < |members| ==> fold(members[i].name) != fold(members[j].name)
  }

  /** No value is nested past the limit, every number fits and no object repeats a name under the folding. */
  predicate Accepts(rule: Rule, d: Doc)
    decreases d
  {
    !rule.limit.Spent() &&
    match d
    case Array(items) => forall i :: 0 <= i < |items| ==> Accepts(rule.Below(), items[i])
    case Object(members) =>
      && DistinctUnder(rule.fold, members)
      && forall i :: 0 <= i < |members| ==> Accepts(rule.Below(), members[i].value)
    case Number(text) => rule.fits(text)
    case _ => true
  }

  predicate NumbersFit(fits: string -> bool, d: Doc) {
    match d
    case Array(items) => forall i :: 0 <= i < |items| ==> NumbersFit(fits, items[i])
    case Object(members) => forall i :: 0 <= i < |members| ==> NumbersFit(fits, members[i].value)
    case Number(text) => fits(text)
    case _ => true
  }

  /** No object at any depth repeats a member name under the folding. */
  predicate NoDuplicatesUnder(fold: string -> string, d: Doc) {
    match d
    case Array(items) => forall i :: 0 <= i < |items| ==> NoDuplicatesUnder(fold, items[i])
    case Object(members) =>
      DistinctUnder(fold, members) && forall i :: 0 <= i < |members| ==> NoDuplicatesUnder(fold, members[i].value)
    case _ => true
  }

  function Exactly(name: string): string { name }

  /** The bounded exact walk accepts exactly the documents without duplicates, within the depth, whose numbers fit. */
  lemma {:induction false} AcceptsStrict(fits: string -> bool, d: Doc, n: int)
    ensures Accepts(Rule(Exactly, fits, Levels(n)), d) <==> NoDuplicates(d) && WithinDepth(d, n) && NumbersFit(fits, d)
  {
    match d
    case Array(items) => forall i | 0 <= i < |items| { AcceptsStrict(fits, items[i], n - 1); }
    case Object(members) => forall i | 0 <= i < |members| { AcceptsStrict(fits, members[i].value, n - 1); }
    case _ =>
  }

  /** The folding scan accepts exactly the documents without duplicates under the folding whose numbers fit. */
  lemma {:induction false} AcceptsFolded(fold: string -> string, fits: string -> bool, d: Doc)
    ensures Accepts(Rule(fold, fits, Unlimited), d) <==> NoDuplicatesUnder(fold, d) && NumbersFit(fits, d)
  {
    match d
    case Array(items) => forall i | 0 <= i < |items| { AcceptsFolded(fold, fits, items[i]); }
    case Object(members) => forall i | 0 <= i < |members| { AcceptsFolded(fold, fits, members[i].value); }
    case _ =>
  }

  // ----- the walk on token streams -----

  /** What is left of the stream after one accepted value, or none. */
  function Walked(rule: Rule, ts: seq<Token>): (r: Option<seq<Token>>)
    ensures r.Some? ==> |r.value| < |ts|
    decreases |ts|, 0
  {
    if rule.limit.Spent() || ts == [] then None
    else match ts[0]
      case OpenArray => WalkedItems(rule.Below(), ts[1..])
      case OpenObject => WalkedMembers(rule.Below(), ts[1..], [])
      case Close => None
      case NumberText(digits) => if rule.fits(digits) then Some(ts[1..]) else None
      case _ => Some(ts[1..])
  }

  function WalkedItems(rule: Rule, ts: seq<Token>): (r: Option<seq<Token>>)
    ensures r.Some? ==> |r.value| < |ts|
    decreases |ts|, 1
  {
    if ts == [] then None
    else if ts[0] == Close then Some(ts[1..])
    else
      var rest := Walked(rule, ts);
      if rest.None? then None else WalkedItems(rule, rest.value)
  }

  predicate Seen(fold: string -> string, seen: seq<string>, name: string) {
    exists i :: 0 <= i < |seen| && fold(seen[i]) == fold(name)
  }

  function WalkedMembers(rule: Rule, ts: seq<Token>, seen: seq<string>): (r: Option<seq<Token>>)
    ensures r.Some? ==> |r.value| < |ts|
    decreases |ts|, 1
  {
    if ts == [] then None
    else if ts[0] == Close then Some(ts[1..])
    else if !ts[0].Text? || Seen(rule.fold, seen, ts[0].chars) then None
    else
      var rest := Walked(rule, ts[1..]);
      if rest.None? then None else WalkedMembers(rule, rest.value, seen + [ts[0].chars])
  }

  // ----- on the stream of any document the walk decides the meaning and consumes the document -----

  lemma {:induction false} WalkedDoc(rule: Rule, d: Doc, rest: seq<Token>)
    ensures Walked(rule, Tokens(d) + rest) == if Accepts(rule, d) then Some(rest) else None
    decreases d, 0
  {
    var ts := Tokens(d) + rest;
    if !rule.limit.Spent() {
      match d {
        case Array(items) =>
          assert ts[1..] == ItemTokens(items) + ([Close] + rest);
          WalkedAllItems(rule.Below(), items, rest);
        case Object(members) =>
          assert ts[1..] == MemberTokens(members) + ([Close] + rest);
          WalkedAllMembers(rule.Below(), members, [], rest);
          assert forall i :: 0 <= i < |members| ==> !Seen(rule.fold, [], members[i].name);
        case _ =>
          assert ts[1..] == rest;
      }
    }
  }

  lemma {:induction false} WalkedAllItems(rule: Rule, items: seq<Doc>, rest: seq<Token>)
    ensures WalkedItems(rule, ItemTokens(items) + ([Close] + rest)) ==
            if forall i :: 0 <= i < |items| ==> Accepts(rule, items[i]) then Some(rest) else None
    decreases items, 1
  {
    var ts := ItemTokens(items) + ([Close] + rest);
    if items == [] {
      assert ts[1..] == rest;
    } else {
      var tail := ItemTokens(items[1..]) + ([Close] + rest);
      assert ts == Tokens(items[0]) + tail;
      WalkedDoc(rule, items[0], tail);
      WalkedAllItems(rule, items[1..], rest);
      assert (forall i :: 0 <= i < |items| ==> Accepts(rule, items[i])) <==>
             Accepts(rule, items[0]) && forall i :: 0 <= i < |items[1..]| ==> Accepts(rule, items[1..][i]) by {
        assert forall i :: 1 <= i < |items| ==> items[i] == items[1..][i - 1];
      }
    }
  }

  /** What is left to check of an object after the names in seen. */
  predicate AcceptsMembers(rule: Rule, members: seq<Member>, seen: seq<string>) {
    && DistinctUnder(rule.fold, members)
    && (forall i :: 0 <= i < |members| ==> !Seen(rule.fold, seen, members[i].name))
    && (forall i :: 0 <= i < |members| ==> Accepts(rule, members[i].value))
  }

  lemma AcceptsMembersStep(rule: Rule, members: seq<Member>, seen: seq<string>)
    requires members != []
    ensures AcceptsMembers(rule, members, seen) <==>
            && !Seen(rule.fold, seen, members[0].name) && Accepts(rule, members[0].value)
            && AcceptsMembers(rule, members[1..], seen + [members[0].name])
  {
    var m, tail, more := members[0], members[1..], seen + [members[0].name];
    assert forall i :: 1 <= i < |members| ==> members[i] == tail[i - 1];
    forall name ensures Seen(rule.fold, more, name) <==> Seen(rule.fold, seen, name) || rule.fold(name) == rule.fold(m.name) {
      assert more[|seen|] == m.name;
      assert forall i :: 0 <= i < |seen| ==> more[i] == seen[i];
    }
  }

  lemma {:induction false} WalkedAllMembers(rule: Rule, members: seq<Member>, seen: seq<string>, rest: seq<Token>)
    ensures WalkedMembers(rule, MemberTokens(members) + ([Close] + rest), seen) ==
            if AcceptsMembers(rule, members, seen) then Some(rest) else None
    decreases members, 1
  {
    var ts := MemberTokens(members) + ([Close] + rest);
    if members == [] {
      assert ts[1..] == rest;
    } else {
      var tail := MemberTokens(members[1..]) + ([Close] + rest);
      assert ts == [Text(members[0].name)] + (Tokens(members[0].value) + tail);
      assert ts[1..] == Tokens(members[0].value) + tail;
      WalkedDoc(rule, members[0].value, tail);
      WalkedAllMembers(rule, members[1..], seen + [members[0].name], rest);
      AcceptsMembersStep(rule, members, seen);
    }
  }

  // ----- and a stream is walked only over the tokens of some document -----

  lemma {:induction false} WalkedIsDoc(rule: Rule, ts: seq<Token>) returns (d: Doc)
    requires Walked(rule, ts).Some?
    ensures ts == Tokens(d) + Walked(rule, ts).value
    decreases |ts|, 0
  {
    match ts[0] {
      case OpenArray =>
        var items := WalkedAreItems(rule.Below(), ts[1..]);
        d := Array(items);
      case OpenObject =>
        var members := WalkedAreMembers(rule.Below(), ts[1..], []);
        d := Object(members);
      case Text(chars) => d := String(chars);
      case NumberText(digits) => d := Number(digits);
      case Truth(value) => d := Bool(value);
      case Nothing => d := Null;
    }
    assert ts == [ts[0]] + ts[1..];
  }

  lemma {:induction false} WalkedAreItems(rule: Rule, ts: seq<Token>) returns (items: seq<Doc>)
    requires WalkedItems(rule, ts).Some?
    ensures ts == ItemTokens(items) + ([Close] + WalkedItems(rule, ts).value)
    decreases |ts|, 1
  {
    if ts[0] == Close {
      items := [];
    } else {
      var d := WalkedIsDoc(rule, ts);
      var tail := WalkedAreItems(rule, Walked(rule, ts).value);
      items := [d] + tail;
      assert items[1..] == tail;
    }
  }

  lemma {:induction false} WalkedAreMembers(rule: Rule, ts: seq<Token>, seen: seq<string>) returns (members: seq<Member>)
    requires WalkedMembers(rule, ts, seen).Some?
    ensures ts == MemberTokens(members) + ([Close] + WalkedMembers(rule, ts, seen).value)
    decreases |ts|, 1
  {
    if ts[0] == Close {
      members := [];
    } else {
      var d := WalkedIsDoc(rule, ts[1..]);
      var tail := WalkedAreMembers(rule, Walked(rule, ts[1..]).value, seen + [ts[0].chars]);
      members := [Member(ts[0].chars, d)] + tail;
      MemberTokensGrow(ts, ts[0].chars, d, tail, [Close] + WalkedMembers(rule, ts, seen).value);
    }
  }

  lemma MemberTokensGrow(ts: seq<Token>, name: string, d: Doc, tail: seq<Member>, rest: seq<Token>)
    requires ts != [] && ts[0] == Text(name) && ts[1..] == Tokens(d) + (MemberTokens(tail) + rest)
    ensures ts == MemberTokens([Member(name, d)] + tail) + rest
  {
    var members := [Member(name, d)] + tail;
    assert members[1..] == tail;
    assert ts == [ts[0]] + ts[1..];
  }

  /** A whole stream passes exactly when it is the stream of one document the rule accepts. */
  lemma WholeStream(rule: Rule, ts: seq<Token>)
    ensures Walked(rule, ts) == Some([]) <==> exists d :: ts == Tokens(d) && Accepts(rule, d)
  {
    if Walked(rule, ts) == Some([]) {
      var d := WalkedIsDoc(rule, ts);
      assert ts == Tokens(d) + [];
      WalkedDoc(rule, d, []);
      assert ts == Tokens(d);
    }
    forall d | ts == Tokens(d) && Accepts(rule, d) ensures Walked(rule, ts) == Some([]) {
      WalkedDoc(rule, d, []);
      assert Tokens(d) + [] == Tokens(d);
    }
  }

  // ----- a stream belongs to one document -----

  lemma {:induction false} TokensUnique(d: Doc, rest: seq<Token>, d1: Doc, rest1: seq<Token>)
    requires Tokens(d) + rest == Tokens(d1) + rest1
    ensures d == d1 && rest == rest1
    decreases d, 0
  {
    var ts := Tokens(d) + rest;
    assert ts[0] == Tokens(d)[0] == Tokens(d1)[0];
    match d {
      case Array(items) =>
        assert ts[1..] == ItemTokens(items) + ([Close] + rest);
        assert ts[1..] == ItemTokens(d1.items) + ([Close] + rest1);
        ItemTokensUnique(items, rest, d1.items, rest1);
      case Object(members) =>
        assert ts[1..] == MemberTokens(members) + ([Close] + rest);
        assert ts[1..] == MemberTokens(d1.members) + ([Close] + rest1);
        MemberTokensUnique(members, rest, d1.members, rest1);
      case _ =>
        assert ts[1..] == rest == rest1;
    }
  }

  lemma {:induction false} ItemTokensUnique(items: seq<Doc>, rest: seq<Token>, items1: seq<Doc>, rest1: seq<Token>)
    requires ItemTokens(items) + ([Close] + rest) == ItemTokens(items1) + ([Close] + rest1)
    ensures items == items1 && rest == rest1
    decreases items, 1
  {
    var ts := ItemTokens(items) + ([Close] + rest);
    assert items == [] ==> ts[0] == Close && ts[1..] == rest;
    assert items1 == [] ==> ts[0] == Close && ts[1..] == rest1;
    if items != [] && items1 != [] {
      var tail, tail1 := ItemTokens(items[1..]) + ([Close] + rest), ItemTokens(items1[1..]) + ([Close] + rest1);
      assert ts == Tokens(items[0]) + tail == Tokens(items1[0]) + tail1;
      TokensUnique(items[0], tail, items1[0], tail1);
      ItemTokensUnique(items[1..], rest, items1[1..], rest1);
      assert items == [items[0]] + items[1..] == items1;
    }
  }

  lemma {:induction false} MemberTokensUnique(members: seq<Member>, rest: seq<Token>, members1: seq<Member>, rest1: seq<Token>)
    requires MemberTokens(members) + ([Close] + rest) == MemberTokens(members1) + ([Close] + rest1)
    ensures members == members1 && rest == rest1
    decreases members, 1
  {
    var ts := MemberTokens(members) + ([Close] + rest);
    assert members == [] ==> ts[0] == Close && ts[1..] == rest;
    assert members1 == [] ==> ts[0] == Close && ts[1..] == rest1;
    if members != [] && members1 != [] {
      var tail, tail1 := MemberTokens(members[1..]) + ([Close] + rest), MemberTokens(members1[1..]) + ([Close] + rest1);
      assert ts == [Text(members[0].name)] + (Tokens(members[0].value) + tail) == [Text(members1[0].name)] + (Tokens(members1[0].value) + tail1);
      assert ts[1..] == Tokens(members[0].value) + tail == Tokens(members1[0].value) + tail1;
      TokensUnique(members[0].value, tail, members1[0].value, tail1);
      MemberTokensUnique(members[1..], rest, members1[1..], rest1);
      assert members == [members[0]] + members[1..] == members1;
    }
  }

  // ----- the decoder and the two walks over it -----

  /** What asking the decoder for a token gives. */
  datatype Reading = Got(token: Token) | AtEnd | Failed

  function FirstOf(fits: string -> bool, ts: seq<Token>, end: End): Reading {
    if ts == [] then (if end.Eof? then AtEnd else Failed)
    else if ts[0].NumberText? && !fits(ts[0].digits) then Failed
    else Got(ts[0])
  }

  predicate MoreOf(ts: seq<Token>, end: End) {
    if ts == [] then end.Broken? && end.more else ts[0] != Close
  }

  class Decoder {
    const fits: string -> bool
    const end: End
    var rest: seq<Token>

    constructor (fits: string -> bool, ts: seq<Token>, end: End)
      ensures this.fits == fits && rest == ts && this.end == end
    {
      this.fits, rest, this.end := fits, ts, end;
    }

    /** The next token; the end of the text and a text or number that cannot be read are told apart. */
    method Next() returns (r: Reading)
      modifies this
      ensures r == FirstOf(fits, old(rest), end)
      ensures rest == if r.Got? then old(rest)[1..] else old(rest)
    {
      if rest == [] { return if end.Eof? then AtEnd else Failed; }
      if rest[0].NumberText? && !fits(rest[0].digits) { return Failed; }
      r := Got(rest[0]);
      rest := rest[1..];
    }

    /** Whether the next character opens another element. */
    method More() returns (more: bool)
      ensures more == MoreOf(rest, end)
    {
      more := if rest == [] then end.Broken? && end.more else rest[0] != Close;
    }

    /** The key-set reader's scan of one value. */
    method ScanValue(fold: string -> string) returns (ok: bool)
      modifies this
      ensures var r := Walked(Rule(fold, fits, Unlimited), old(rest)); ok == r.Some? && (ok ==> rest == r.value)
      decreases |rest|
    {
      ghost var rule := Rule(fold, fits, Unlimited);
      var token := Next();
      if !token.Got? { return false; }
      match token.token {
        case OpenArray =>
          var more := More();
          while more
            invariant more == MoreOf(rest, end) && |rest| < |old(rest)|
            invariant WalkedItems(rule, old(rest)[1..]) == WalkedItems(rule, rest)
            decreases |rest|
          {
            var inner := ScanValue(fold);
            if !inner { return false; }
            more := More();
          }
        case OpenObject =>
          var seen: seq<string> := [];
          var more := More();
          while more
            invariant more == MoreOf(rest, end) && |rest| < |old(rest)|
            invariant WalkedMembers(rule, old(rest)[1..], []) == WalkedMembers(rule, rest, seen)
            decreases |rest|
          {
            var name := Next();
            if !name.Got? || !name.token.Text? { return false; }
            var i := 0;
            while i < |seen|
              invariant i <= |seen| && forall k :: 0 <= k < i ==> fold(seen[k]) != fold(name.token.chars)
            {
              if fold(seen[i]) == fold(name.token.chars) {
                assert Seen(fold, seen, name.token.chars);
                return false;
              }
              i := i + 1;
            }
            seen := seen + [name.token.chars];
            var inner := ScanValue(fold);
            if !inner { return false; }
            more := More();
          }
        case Close => return false;
        case _ => return true;
      }
      var close := Next();
      return close.Got?;
    }

    /** The decision reader's walk of one value at a depth. */
    method Walk(depth: nat, maxDepth: nat) returns (ok: bool)
      modifies this
      ensures var r := Walked(Rule(Exactly, fits, Levels(maxDepth - depth)), old(rest)); ok == r.Some? && (ok ==> rest == r.value)
      decreases |rest|
    {
      ghost var rule := Rule(Exactly, fits, Levels(maxDepth - depth - 1));
      if depth > maxDepth { return false; }
      var token := Next();
      if !token.Got? { return false; }
      match token.token {
        case OpenObject =>
          var seen: set<string> := {};
          ghost var names: seq<string> := [];
          var more := More();
          while more
            invariant more == MoreOf(rest, end) && |rest| < |old(rest)|
            invariant forall name :: name in seen <==> name in names
            invariant WalkedMembers(rule, old(rest)[1..], []) == WalkedMembers(rule, rest, names)
            decreases |rest|
          {
            var name := Next();
            if !name.Got? || !name.token.Text? { return false; }
            assert Seen(Exactly, names, name.token.chars) <==> name.token.chars in names;
            if name.token.chars in seen { return false; }
            seen, names := seen + {name.token.chars}, names + [name.token.chars];
            var inner := Walk(depth + 1, maxDepth);
            if !inner { return false; }
            more := More();
          }
        case OpenArray =>
          var more := More();
          while more
            invariant more == MoreOf(rest, end) && |rest| < |old(rest)|
            invariant WalkedItems(rule, old(rest)[1..]) == WalkedItems(rule, rest)
            decreases |rest|
          {
            var inner := Walk(depth + 1, maxDepth);
            if !inner { return false; }
            more := More();
          }
        case Close => return false;
        case _ => return true;
      }
      var close := Next();
      return close.Got?;
    }
  }

  /** The object of a text like `{} x` is walked to its end, and then the decoder fails: the text is refused. */
  lemma TrailingTextIsSeen(fold: string -> string, fits: string -> bool, limit: Limit, more: bool)
    requires !limit.Spent()
    ensures var rest := Walked(Rule(fold, fits, limit), Tokens(Object([])));
            rest == Some([]) && FirstOf(fits, rest.value, Broken(more)) == Failed && FirstOf(fits, rest.value, Eof) == AtEnd
  {
    WalkedDoc(Rule(fold, fits, limit), Object([]), []);
    assert Tokens(Object([])) + [] == Tokens(Object([]));
  }

  /** A number that no float64 holds, as in `{"n":1e400}`, has its document refused wherever it stands. */
  lemma UnfitNumberIsRefused(fold: string -> string, fits: string -> bool, limit: Limit, d: Doc)
    requires !NumbersFit(fits, d)
    ensures Walked(Rule(fold, fits, limit), Tokens(d)).None?
  {
    WalkedDoc(Rule(fold, fits, limit), d, []);
    assert Tokens(d) + [] == Tokens(d);
    AcceptedFits(Rule(fold, fits, limit), d);
  }

  lemma {:induction false} AcceptedFits(rule: Rule, d: Doc)
    ensures Accepts(rule, d) ==> NumbersFit(rule.fits, d)
    decreases d
  {
    match d
    case Array(items) => forall i | 0 <= i < |items| { AcceptedFits(rule.Below(), items[i]); }
    case Object(members) => forall i | 0 <= i < |members| { AcceptedFits(rule.Below(), members[i].value); }
    case _ =>
  }

  /** The key-set reader's document rule: exactly one value and nothing after it, every number of it fits, and no
      name is repeated under case folding at any depth. */
  method SingleDocumentWithoutDuplicateMembers(fold: string -> string, fits: string -> bool, ts: seq<Token>, end: End) returns (ok: bool)
    ensures ok <==> end.Eof? && exists d :: ts == Tokens(d) && NoDuplicatesUnder(fold, d) && NumbersFit(fits, d)
  {
    ghost var rule := Rule(fold, fits, Unlimited);
    WholeStream(rule, ts);
    forall d ensures Accepts(rule, d) <==> NoDuplicatesUnder(fold, d) && NumbersFit(fits, d) { AcceptsFolded(fold, fits, d); }
    var decoder := new Decoder(fits, ts, end);
    ok := decoder.ScanValue(fold);
    if !ok { return; }
    var after := decoder.Next();
    ok := after.AtEnd?;
  }

  /** The decision reader's document rule: exactly one value and nothing after it, every number of it fits, no name
      is repeated, and nesting is at most maxDepth. */
  method RejectDuplicates(fits: string -> bool, ts: seq<Token>, end: End, maxDepth: nat) returns (ok: bool)
    ensures ok <==> end.Eof? && exists d :: ts == Tokens(d) && NoDuplicates(d) && WithinDepth(d, maxDepth) && NumbersFit(fits, d)
  {
    ghost var rule := Rule(Exactly, fits, Levels(maxDepth));
    WholeStream(rule, ts);
    forall d ensures Accepts(rule, d) <==> NoDuplicates(d) && WithinDepth(d, maxDepth) && NumbersFit(fits, d) { AcceptsStrict(fits, d, maxDepth); }
    var decoder := new Decoder(fits, ts, end);
    ok := decoder.Walk(0, maxDepth);
    if !ok { return; }
    var after := decoder.Next();
    ok := after.AtEnd?;
  }
}
