/** A token that passes: the premises of the refinement and of its run form can be met together. */
module TokenWitness {
  import opened Wrappers
  import opened Digits
  import opened NumberText
  import opened JsonDoc
  import opened Compact
  import opened TokenWire
  import opened TokenCheck
  import opened TokenSlots
  import opened TokenRuns
  import TokenRefinement
  import V = WorkloadVerifier

  const HEADER := Object([Member("alg", String("EdDSA")), Member("typ", String("workload+jwt")), Member("kid", String("k"))])

  const CLAIMS := Object([
    Member("iss", String("issuer")), Member("aud", String("auth-service")), Member("sub", String("prn_w")),
    Member("principal_type", String("workload")), Member("jti", String("aaaaaaaaaaaaaaaaaaaaaa")),
    Member("iat", Number("1")), Member("nbf", Number("1")), Member("exp", Number("9"))])

  lemma SmallNumber(text: string)
    requires |text| == 1 && IsDigit(text[0])
    ensures JsonNumber(text)
  {
    var p := Parts(false, text, "", NoExponent);
    assert p.Valid() && p.Render() == text;
  }

  lemma DocumentsAreJson()
    ensures NumbersValid(HEADER) && NumbersValid(CLAIMS)
  {
    SmallNumber("1");
    SmallNumber("9");
  }

  function Decoded(s: string): Option<Bytes> {
    if s == "h" then Some([1]) else if s == "p" then Some([2]) else if s == "s" then Some(seq(SIGNATURE_SIZE, _ => 0)) else None
  }

  function ReadText(raw: Bytes): Option<Json> {
    DocumentsAreJson();
    if raw == [1] then Some(HEADER) else if raw == [2] then Some(CLAIMS) else None
  }

  const ENV := Env(s => Decoded(s).Some?, Decoded, ReadText, (s: string) => s, (_: string) => true, (s: string) => s == "issuer")
  const CONFIG := Config(Settings("issuer", SECOND, 0.5), SECOND, SECOND)
  const ENTRY := Entry("h.p.s", "auth-service", SECOND, 9 * SECOND)
  const VERIFIER := V.Verifier("issuer", "auth-service", (_: string) => V.Known(seq(KEY_SIZE, _ => 0)), {}, 0, (_: Bytes, _: string, _: Bytes) => true)

  lemma EnvIsLawful()
    ensures ENV.Lawful() && CONFIG.Valid(ENV) && VERIFIER.Valid(ENV)
  {
  }

  lemma ThreePieces()
    ensures Split("h.p.s", '.') == ["h", "p", "s"]
  {
    SplitPiece("h", '.');
    SplitPiece("p", '.');
    SplitPiece("s", '.');
    assert "h.p.s" == "h" + ['.'] + "p.s" && "p.s" == "p" + ['.'] + "s";
    SplitJoined("p", '.', "s");
    SplitJoined("h", '.', "p.s");
  }

  lemma HeaderLookups()
    ensures DistinctNames(HEADER.members)
    ensures Lookup(HEADER.members, "alg") == Some(String("EdDSA"))
    ensures Lookup(HEADER.members, "typ") == Some(String("workload+jwt"))
    ensures Lookup(HEADER.members, "kid") == Some(String("k"))
  {
    var m := HEADER.members;
    assert m[0].name[0] == 'a' && m[1].name[0] == 't' && m[2].name[0] == 'k';
    TokenRefinement.LookupIsMember(m, 0);
    TokenRefinement.LookupIsMember(m, 1);
    TokenRefinement.LookupIsMember(m, 2);
  }

  /** The i-th claim has the i-th name. */
  lemma ClaimNames(i: nat)
    requires i < |CLAIM_MEMBERS|
    ensures |CLAIMS.members| == |CLAIM_MEMBERS| && CLAIMS.members[i].name == CLAIM_MEMBERS[i]
  {
  }

  lemma ClaimNamesDistinct(i: nat, j: nat)
    requires i < j < |CLAIM_MEMBERS|
    ensures CLAIM_MEMBERS[i] != CLAIM_MEMBERS[j]
  {
    assert |"iss"| == |"aud"| == |"sub"| == |"jti"| == |"iat"| == |"nbf"| == |"exp"| == 3 && |"principal_type"| == 14;
    assert "iss"[1] == 's' && "aud"[1] == 'u' && "sub"[1] == 'u' && "jti"[1] == 't' && "iat"[1] == 'a' && "nbf"[1] == 'b' && "exp"[1] == 'x';
    assert "aud"[0] == 'a' && "sub"[0] == 's';
  }

  lemma ClaimLookup(i: nat)
    requires i < |CLAIM_MEMBERS|
    ensures DistinctNames(CLAIMS.members) && Lookup(CLAIMS.members, CLAIM_MEMBERS[i]) == Some(CLAIMS.members[i].value)
  {
    var m := CLAIMS.members;
    forall a, b | 0 <= a < b < |m| ensures m[a].name != m[b].name {
      ClaimNames(a);
      ClaimNames(b);
      ClaimNamesDistinct(a, b);
    }
    ClaimNames(i);
    TokenRefinement.LookupIsMember(m, i);
  }

  lemma ClaimText(i: nat)
    requires i < 5
    ensures Text(CLAIMS.members, CLAIM_MEMBERS[i]) == Some(CLAIMS.members[i].value.chars)
  {
    hide Lookup;
    ClaimLookup(i);
  }

  lemma ClaimTexts()
    ensures TextClaims(CLAIMS.members, "issuer", "auth-service")
  {
    hide Text, Lookup;
    ClaimText(0);
    ClaimText(1);
    ClaimText(2);
    ClaimText(3);
    ClaimText(4);
    assert SubjectShape("prn_w") by { assert "prn_w"[..4] == "prn_" && "prn_w"[4..] == "w"; }
    assert TokenIdShape("aaaaaaaaaaaaaaaaaaaaaa");
  }

  lemma SmallDate(name: string, text: string)
    requires |text| == 1 && IsDigit(text[0]) && Digit(text[0]) >= 1 && Lookup(CLAIMS.members, name) == Some(Number(text))
    ensures DateOf(CLAIMS.members, name) == Some(Digit(text[0]))
  {
    assert text[..0] == "";
    assert Value(text) == Digit(text[0]);
  }

  lemma ClaimDates()
    ensures DateClaims(CLAIMS.members) == Some(Dates(1, 1, 9))
  {
    ClaimLookup(5);
    ClaimLookup(6);
    ClaimLookup(7);
    SmallDate("iat", "1");
    SmallDate("nbf", "1");
    SmallDate("exp", "9");
  }

  lemma TokenIsShaped()
    ensures WorkloadTokenShape(ENV, ENTRY.token)
  {
    ThreePieces();
    HeaderLookups();
    assert UniqueObject(ENV, [1]) == Some(HEADER.members);
    assert HeaderShape(HEADER.members);
  }

  lemma TokenIsDated()
    ensures WorkloadTokenShape(ENV, ENTRY.token) && TokenClaims(ENV, ENTRY.token, "issuer", "auth-service") == Some(Dates(1, 1, 9))
  {
    hide Lookup, TextClaims, DateClaims, Split, WorkloadTokenShape;
    TokenIsShaped();
    ThreePieces();
    forall i | 0 <= i < |CLAIM_MEMBERS| ensures Lookup(CLAIMS.members, CLAIM_MEMBERS[i]).Some? { ClaimLookup(i); }
    ClaimLookup(0);
    ClaimTexts();
    ClaimDates();
    assert UniqueObject(ENV, [2]) == Some(CLAIMS.members);
  }

  /** The premises of the refinement hold together of one environment, one token and one verifier, and the verifier
      accepts the token. */
  lemma UsableTokenExists()
    ensures ENV.Lawful() && CONFIG.Valid(ENV) && VERIFIER.Valid(ENV)
    ensures CheckToken(ENV, CONFIG.check, ENTRY, 2 * SECOND).Usable?
    ensures V.Verify(ENV, VERIFIER, ENTRY.token, 2 * SECOND).Accepted?
  {
    EnvIsLawful();
    TokenIsDated();
    TokenRefinement.UsableTokenVerifies(ENV, CONFIG.check, ENTRY, 2 * SECOND, VERIFIER);
    ThreePieces();
  }

  /** Any token that is usable on arrival is handed out by the run that asks for it. */
  lemma HandedOut(env: Env, cfg: Config, key: Key, e: Entry, begun: int, arrived: int) returns (states: seq<System>, events: seq<Event>)
    requires cfg.Valid(env) && e.audience == key.audience && UsableAt(env, cfg, Some(e), arrived)
    ensures IsRun(env, cfg, states, events)
    ensures events == [Begin(1, key, begun), Finish(1, Issued(e), arrived, arrived, arrived)]
    ensures Section(env, cfg, states[1], events[1]).1 == Some(Token(e.token))
  {
    hide CheckToken;
    events := [Begin(1, key, begun), Finish(1, Issued(e), arrived, arrived, arrived)];
    var s0 := System(map[], map[]);
    var s1 := Next(env, cfg, s0, events[0]);
    states := [s0, s1, Next(env, cfg, s1, events[1])];
  }

  /** And a run of the client hands that token out. */
  lemma UsableTokenIsHandedOut() returns (states: seq<System>, events: seq<Event>)
    ensures IsRun(ENV, CONFIG, states, events) && |events| == 2
    ensures Section(ENV, CONFIG, states[1], events[1]).1 == Some(Token(ENTRY.token))
  {
    hide CheckToken;
    UsableTokenExists();
    states, events := HandedOut(ENV, CONFIG, Key("auth-service", []), ENTRY, SECOND, 2 * SECOND);
  }
}
