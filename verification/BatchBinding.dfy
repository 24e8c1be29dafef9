/** Reading a batch answer: every item binds to its request by count, position and explicit index, or the
    whole batch is denied. */
module BatchBinding {
  import opened Wrappers
  import opened DecisionCache
  import opened Digits
  import opened JsonDoc

  datatype Request = Request(key: Key, requestId: string)

  /** Checks one decision document against its request; a failed check is a local deny. */
  type Decoder = (seq<Member>, Request) -> Decision

  const MAX_BATCH := 100
  const MAX_DEPTH := 16
  const BATCH_SCHEMA := "authorization_batch_response.v1"
  const MALFORMED := Local("pdp_malformed")
  const MISMATCH := Local("pdp_mismatch")

  function DenyAll(d: Decision, n: nat): (out: seq<Decision>)
    ensures |out| == n && forall i :: 0 <= i < n ==> out[i] == d
  {
    seq(n, _ => d)
  }

  predicate AllLocal(out: seq<Decision>) { forall i :: 0 <= i < |out| ==> out[i].Local? }

  predicate NoneLocal(out: seq<Decision>) { forall i :: 0 <= i < |out| ==> out[i].Verdict? }

  /** A non-negative integer token that fits 63 bits: no sign, fraction, exponent or leading zero. */
  function ParseRevision(text: string): (r: Option<nat>)
    ensures r.Some? ==> text == Decimal(r.value)
  {
    if Canonical(text) && Value(text) < 0x8000_0000_0000_0000 then
      CanonicalIsDecimal(text);
      Some(Value(text))
    else None
  }

  /** A text is read as n exactly when it is the decimal of n and n fits 63 bits. */
  lemma ParseRevisionExactly(text: string, n: nat)
    ensures ParseRevision(text) == Some(n) <==> text == Decimal(n) && n < 0x8000_0000_0000_0000
  {
    DecimalValue(n);
  }

  /** The document repeats no member name and nests at most MAX_DEPTH deep. */
  predicate Strict(d: Doc) { NoDuplicates(d) && WithinDepth(d, MAX_DEPTH) }

  // ----- what it means for an answer to bind -----

  predicate IsItem(item: Doc, i: nat) {
    && item.Object?
    && ExactNames(item.members, ["index", "decision"])
    && Lookup(item.members, "index") == Some(Number(Decimal(i)))
    && Lookup(item.members, "decision").value.Object?
  }

  function Inner(item: Doc): seq<Member>
    requires item.Object? && Lookup(item.members, "decision").Some? && Lookup(item.members, "decision").value.Object?
  {
    Lookup(item.members, "decision").value.members
  }

  /** The envelope of an answer: the list of its items. There is no body when the text is not exactly one JSON value
      or holds a number that no float64 can. */
  function Envelope(body: Option<Doc>): Option<seq<Doc>> {
    if body.Some? && Strict(body.value) && body.value.Object? && ExactNames(body.value.members, ["schema_version", "decisions"])
       && Lookup(body.value.members, "schema_version") == Some(String(BATCH_SCHEMA)) && Lookup(body.value.members, "decisions").value.Array?
    then Some(Lookup(body.value.members, "decisions").value.items)
    else None
  }

  /** The answer has one item per request, the i-th one carries index i and a decision the decoder accepts
      for the i-th request. */
  predicate Binds(decode: Decoder, body: Option<Doc>, reqs: seq<Request>) {
    var items := Envelope(body);
    && items.Some?
    && 0 < |items.value| == |reqs| <= MAX_BATCH
    && (forall i :: 0 <= i < |reqs| ==> IsItem(items.value[i], i))
    && (forall i :: 0 <= i < |reqs| ==> decode(Inner(items.value[i]), reqs[i]).Verdict?)
  }

  /** One entry of an answer: its explicit index and its decision document. */
  datatype Item = Item(index: nat, inner: seq<Member>)

  const ITEM_NAMES := ["index", "decision"]

  function ReadItem(item: Doc): (r: Option<Item>)
    ensures r.Some? ==> r.value.index < MAX_BATCH && IsItem(item, r.value.index) && r.value.inner == Inner(item)
  {
    if !item.Object? || !ExactNames(item.members, ITEM_NAMES) then None
    else
      assert ITEM_NAMES[0] in ITEM_NAMES && ITEM_NAMES[1] in ITEM_NAMES;
      var raw, inner := Lookup(item.members, "index").value, Lookup(item.members, "decision").value;
      var index := if raw.Number? then ParseRevision(raw.text) else None;
      if index.None? || index.value >= MAX_BATCH || !inner.Object? then None else Some(Item(index.value, inner.members))
  }

  /** An entry that carries an index below the bound is read with that index and no other. */
  lemma ReadItemComplete(item: Doc, i: nat)
    requires IsItem(item, i) && i < MAX_BATCH
    ensures ReadItem(item) == Some(Item(i, Inner(item)))
  {
    DecimalValue(i);
  }

  // ----- the two documents, member by member -----

  lemma ThirdName(members: seq<Member>, a: string, b: string)
    requires DistinctNames(members) && |members| > 2
    ensures exists k :: 0 <= k < |members| && members[k].name != a && members[k].name != b
  {
    assert members[0].name != members[1].name && members[0].name != members[2].name && members[1].name != members[2].name;
  }

  /** An object with distinct names, exactly these two, is the two members in one order or the other. */
  lemma TwoMembers(members: seq<Member>, a: string, b: string)
    requires DistinctNames(members) && a != b
    ensures ExactNames(members, [a, b]) <==>
            exists x, y :: members == [Member(a, x), Member(b, y)] || members == [Member(b, y), Member(a, x)]
    ensures ExactNames(members, [a, b]) ==> var x, y := Lookup(members, a).value, Lookup(members, b).value;
            members == [Member(a, x), Member(b, y)] || members == [Member(b, y), Member(a, x)]
  {
    if ExactNames(members, [a, b]) {
      assert a in [a, b] && b in [a, b];
      LookupPresent(members, a);
      LookupPresent(members, b);
      var i :| 0 <= i < |members| && members[i] == Member(a, Lookup(members, a).value);
      var j :| 0 <= j < |members| && members[j] == Member(b, Lookup(members, b).value);
      assert forall k :: 0 <= k < |members| ==> members[k].name == a || members[k].name == b;
      if |members| > 2 { ThirdName(members, a, b); }
      assert members == if i == 0 then [members[i], members[j]] else [members[j], members[i]];
    }
    forall x, y | members == [Member(a, x), Member(b, y)] || members == [Member(b, y), Member(a, x)] ensures ExactNames(members, [a, b]) {
      TwoLookups(members, a, b, x, y);
    }
  }

  lemma TwoLookups(members: seq<Member>, a: string, b: string, x: Doc, y: Doc)
    requires a != b && (members == [Member(a, x), Member(b, y)] || members == [Member(b, y), Member(a, x)])
    ensures Lookup(members, a) == Some(x) && Lookup(members, b) == Some(y)
  {
    assert members[..1] == [members[0]] && members[..1][..0] == [];
  }

  /** The document with its two members in one order or the other. */
  ghost predicate IsPair(d: Doc, a: string, x: Doc, b: string, y: Doc) {
    d == Object([Member(a, x), Member(b, y)]) || d == Object([Member(b, y), Member(a, x)])
  }

  /** An answer is read exactly when it holds the schema name and a list, nothing else, repeats no name at any depth
      and nests at most 16 deep; then its items are that list. */
  lemma EnvelopeExactly(body: Option<Doc>, items: seq<Doc>)
    ensures Envelope(body) == Some(items) <==>
            && body.Some? && NoDuplicates(body.value) && WithinDepth(body.value, 16)
            && IsPair(body.value, "schema_version", String("authorization_batch_response.v1"), "decisions", Array(items))
  {
    if body.Some? && body.value.Object? {
      var m := body.value.members;
      if DistinctNames(m) {
        TwoMembers(m, "schema_version", "decisions");
        if IsPair(body.value, "schema_version", String(BATCH_SCHEMA), "decisions", Array(items)) {
          TwoLookups(m, "schema_version", "decisions", String(BATCH_SCHEMA), Array(items));
        }
      }
    }
  }

  /** An entry carries index i exactly when it holds the decimal of i and an object, and nothing else. */
  lemma ItemExactly(item: Doc, i: nat, inner: seq<Member>)
    requires NoDuplicates(item)
    ensures IsItem(item, i) && Inner(item) == inner <==> IsPair(item, "index", Number(Decimal(i)), "decision", Object(inner))
  {
    if item.Object? {
      TwoMembers(item.members, "index", "decision");
      if IsPair(item, "index", Number(Decimal(i)), "decision", Object(inner)) {
        TwoLookups(item.members, "index", "decision", Number(Decimal(i)), Object(inner));
      }
    }
  }

  // ----- reading it -----

  /** The answer is well formed: one to a hundred entries, each with an index below a hundred and a decision. */
  predicate Readable(body: Option<Doc>) {
    var docs := Envelope(body);
    && docs.Some? && 0 < |docs.value| <= 100
    && forall i :: 0 <= i < |docs.value| ==> IsEntry(docs.value[i])
  }

  predicate IsEntry(item: Doc) { exists k: nat :: k < 100 && IsItem(item, k) }

  /** The entries line up with the requests. */
  predicate LinesUp(body: Option<Doc>, reqs: seq<Request>)
    requires Readable(body)
  {
    var docs := Envelope(body).value;
    |docs| == |reqs| && forall i :: 0 <= i < |docs| ==> IsItem(docs[i], i)
  }

  /** The i-th entry is the first one whose decision is refused for its request, with d. */
  predicate FirstRefusal(decode: Decoder, docs: seq<Doc>, reqs: seq<Request>, i: nat, d: Decision)
    requires |docs| == |reqs|
  {
    && i < |docs| && IsItem(docs[i], i) && d.Local? && d == decode(Inner(docs[i]), reqs[i])
    && forall k :: 0 <= k < i ==> IsItem(docs[k], k) && decode(Inner(docs[k]), reqs[k]).Verdict?
  }

  /** A bound answer gives each request the decision of its own item; any other denies every request, as malformed,
      as a mismatch, or with the first decision that is refused. */
  method ParseBatch(decode: Decoder, body: Option<Doc>, reqs: seq<Request>) returns (out: seq<Decision>)
    ensures |out| == |reqs|
    ensures Binds(decode, body, reqs) ==>
              forall i :: 0 <= i < |reqs| ==> out[i] == decode(Inner(Envelope(body).value[i]), reqs[i]) && out[i].Verdict?
    ensures !Binds(decode, body, reqs) ==> AllLocal(out)
    ensures !Readable(body) ==> out == DenyAll(Local("pdp_malformed"), |reqs|)
    ensures Readable(body) && !LinesUp(body, reqs) ==> out == DenyAll(Local("pdp_mismatch"), |reqs|)
    ensures Readable(body) && LinesUp(body, reqs) && !Binds(decode, body, reqs) ==>
              exists i, d :: FirstRefusal(decode, Envelope(body).value, reqs, i, d) && out == DenyAll(d, |reqs|)
  {
    hide Envelope, IsItem;
    var items := ReadAnswer(body);
    if items == [] { return DenyAll(MALFORMED, |reqs|); }
    ghost var docs := Envelope(body).value;
    LinedUp(body, docs, items, reqs);
    var lined := |items| == |reqs|;
    if !lined { return DenyAll(MISMATCH, |reqs|); }
    lined := InOrder(items);
    if !lined { return DenyAll(MISMATCH, |reqs|); }
    ghost var refused;
    out, refused := DecideItems(decode, items, reqs);
    assert refused.Some? ==> FirstRefusal(decode, docs, reqs, refused.value, out[0]);
  }

  /** The entries of a well-formed answer, and none otherwise. */
  method ReadAnswer(body: Option<Doc>) returns (items: seq<Item>)
    ensures items == [] <==> !Readable(body)
    ensures items != [] ==> |items| == |Envelope(body).value| && forall i :: 0 <= i < |items| ==> ReadItem(Envelope(body).value[i]) == Some(items[i])
  {
    if Envelope(body).None? { return []; }
    var docs := Envelope(body).value;
    if |docs| == 0 || |docs| > MAX_BATCH { return []; }
    items := ReadItems(docs);
  }

  method InOrder(items: seq<Item>) returns (ordered: bool)
    ensures ordered <==> forall i :: 0 <= i < |items| ==> items[i].index == i
  {
    for i := 0 to |items|
      invariant forall k :: 0 <= k < i ==> items[k].index == k
    {
      if items[i].index != i { return false; }
    }
    return true;
  }

  lemma ReadIndex(doc: Doc, item: Item, i: nat)
    requires ReadItem(doc) == Some(item)
    ensures item.index == i <==> IsItem(doc, i)
    ensures item.index == i ==> item.inner == Inner(doc)
  {
    DecimalValue(i);
    DecimalValue(item.index);
  }

  lemma LinedUp(body: Option<Doc>, docs: seq<Doc>, items: seq<Item>, reqs: seq<Request>)
    requires Readable(body) && docs == Envelope(body).value && |items| == |docs|
    requires forall i :: 0 <= i < |docs| ==> ReadItem(docs[i]) == Some(items[i])
    ensures LinesUp(body, reqs) <==> |items| == |reqs| && forall i :: 0 <= i < |items| ==> items[i].index == i
    ensures LinesUp(body, reqs) ==> forall i :: 0 <= i < |items| ==> items[i].inner == Inner(docs[i])
  {
    hide ReadItem, Envelope;
    forall i | 0 <= i < |docs|
      ensures items[i].index == i <==> IsItem(docs[i], i)
      ensures IsItem(docs[i], i) ==> items[i].inner == Inner(docs[i])
    {
      ReadIndex(docs[i], items[i], i);
    }
  }

  lemma EntryIsRead(item: Doc)
    ensures ReadItem(item).Some? <==> IsEntry(item)
  {
    if IsEntry(item) {
      var k: nat :| k < 100 && IsItem(item, k);
      ReadItemComplete(item, k);
    }
  }

  /** The entries of an answer, or none when one of them is malformed. */
  method ReadItems(docs: seq<Doc>) returns (items: seq<Item>)
    requires 0 < |docs| <= MAX_BATCH
    ensures items == [] || |items| == |docs|
    ensures forall i :: 0 <= i < |items| ==> ReadItem(docs[i]) == Some(items[i])
    ensures items == [] <==> exists i :: 0 <= i < |docs| && !IsEntry(docs[i])
  {
    items := [];
    for i := 0 to |docs|
      invariant |items| == i
      invariant forall k :: 0 <= k < i ==> ReadItem(docs[k]) == Some(items[k]) && IsEntry(docs[k])
    {
      var item := ReadItem(docs[i]);
      EntryIsRead(docs[i]);
      if item.None? { return []; }
      items := items + [item.value];
    }
  }

  /** The decisions of the entries, or a denial of all by the first one refused. */
  method DecideItems(decode: Decoder, items: seq<Item>, reqs: seq<Request>) returns (out: seq<Decision>, ghost refused: Option<nat>)
    requires |items| == |reqs|
    ensures |out| == |reqs|
    ensures refused.None? ==> forall i :: 0 <= i < |reqs| ==> out[i] == decode(items[i].inner, reqs[i]) && out[i].Verdict?
    ensures refused.Some? ==> refused.value < |reqs| && forall k :: 0 <= k < refused.value ==> decode(items[k].inner, reqs[k]).Verdict?
    ensures refused.Some? ==> var d := decode(items[refused.value].inner, reqs[refused.value]); d.Local? && out == DenyAll(d, |reqs|)
  {
    out, refused := [], None;
    for i := 0 to |items|
      invariant |out| == i && refused.None?
      invariant forall k :: 0 <= k < i ==> out[k] == decode(items[k].inner, reqs[k]) && out[k].Verdict?
    {
      var d := decode(items[i].inner, reqs[i]);
      if d.Local? { return DenyAll(d, |reqs|), Some(i); }
      out := out + [d];
    }
  }
}
