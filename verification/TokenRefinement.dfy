/** The client's check implies the verifier's: a token the check calls usable is refused by no verifier of the
    same issuer and audience for anything but its key. */
module TokenRefinement {
  import opened Wrappers
  import opened Digits
  import opened NumberText
  import opened JsonDoc
  import opened StrictJson
  import opened Compact
  import opened TokenWire
  import TokenCheck
  import V = WorkloadVerifier

  // ----- a closed set of names -----

  ghost function NameSet(members: seq<Member>): set<string> {
    set i | 0 <= i < |members| :: members[i].name
  }

  ghost function Elements(names: seq<string>): set<string> {
    set i | 0 <= i < |names| :: names[i]
  }

  lemma {:induction false} DistinctCount(names: seq<string>)
    requires forall i, j :: 0 <= i < j < |names| ==> names[i] != names[j]
    ensures |Elements(names)| == |names|
  {
    if names != [] {
      var n := |names| - 1;
      DistinctCount(names[..n]);
      assert Elements(names) == Elements(names[..n]) + {names[n]};
      assert names[n] !in Elements(names[..n]);
    }
  }

  lemma DistinctNameCount(members: seq<Member>)
    requires DistinctNames(members)
    ensures |NameSet(members)| == |members|
  {
    var names := seq(|members|, i requires 0 <= i < |members| => members[i].name);
    DistinctCount(names);
    assert forall i :: 0 <= i < |members| ==> names[i] == members[i].name;
    assert NameSet(members) == Elements(names);
  }

  lemma SubsetOfSize(a: set<string>, b: set<string>)
    requires b <= a && |a| <= |b|
    ensures a == b
  {
    var rest := a - b;
    assert a == b + rest;
    assert |a| == |b| + |rest|;
  }

  /** As many distinct members as names, every name present: no member has another name. */
  lemma ClosedByCount(members: seq<Member>, names: seq<string>)
    requires DistinctNames(members) && |members| == |names|
    requires forall i, j :: 0 <= i < j < |names| ==> names[i] != names[j]
    requires forall i :: 0 <= i < |names| ==> Lookup(members, names[i]).Some?
    ensures V.ClosedSet(members, names)
  {
    forall i | 0 <= i < |names| ensures names[i] in NameSet(members) { LookupPresent(members, names[i]); }
    DistinctNameCount(members);
    DistinctCount(names);
    assert Elements(names) <= NameSet(members);
    SubsetOfSize(NameSet(members), Elements(names));
    forall i | 0 <= i < |members| ensures members[i].name in names {
      assert members[i].name in NameSet(members);
    }
  }

  // ----- the two duplicate rules -----

  /** A value with nothing inside it, and a number only if it fits. */
  predicate IsScalar(env: Env, d: Doc) { !d.Array? && !d.Object? && (d.Number? ==> env.fits(d.text)) }

  /** Exactly distinct lower-case names with scalar values satisfy the folded, deep rule too. */
  lemma ScalarObjectAccepted(env: Env, members: seq<Member>)
    requires env.Lawful() && DistinctNames(members)
    requires forall i :: 0 <= i < |members| ==> LowerCase(members[i].name) && IsScalar(env, members[i].value)
    ensures Accepts(Rule(env.fold, env.fits, Unlimited), Object(members))
  {
    forall i | 0 <= i < |members| ensures env.fold(members[i].name) == members[i].name {
      assert LowerCase(members[i].name);
    }
  }

  /** With distinct names, a member's value is what a lookup of its name finds. */
  lemma LookupIsMember(members: seq<Member>, i: nat)
    requires DistinctNames(members) && i < |members|
    ensures Lookup(members, members[i].name) == Some(members[i].value)
  {
    LookupPresent(members, members[i].name);
    assert HasName(members, members[i].name);
    var k :| 0 <= k < |members| && members[k] == Member(members[i].name, Lookup(members, members[i].name).value);
  }

  // ----- the two date readers -----

  lemma {:induction false} LongNumeral(s: string)
    requires AllDigits(s) && s != "" && s[0] != '0'
    ensures Value(s) >= Pow10(|s| - 1)
  {
    if |s| > 1 {
      LongNumeral(s[..|s| - 1]);
    } else {
      assert s[..0] == "";
    }
  }

  lemma {:induction false} PowGrows(a: nat, b: nat)
    requires a <= b
    ensures Pow10(a) <= Pow10(b)
  {
    if a < b { PowGrows(a, b - 1); }
  }

  lemma SignDecides(text: string)
    requires ParseInt64(text).Some?
    ensures text != ""
    ensures text[0] == '-' ==> ParseInt64(text).value <= 0
    ensures IsDigit(text[0]) ==> AllDigits(text) && ParseInt64(text).value == Value(text)
  {
  }

  /** A fraction or an exponent shows in the text as a character that is no digit. */
  lemma PartsShow(p: Parts)
    requires p.Valid()
    ensures p.fraction != "" || p.exponent.Exponent? ==> !AllDigits(p.Mantissa() + p.exponent.Render())
  {
    var m, text := p.Mantissa(), p.Mantissa() + p.exponent.Render();
    if p.fraction != "" {
      assert text[|p.whole|] == m[|p.whole|] == '.';
    } else if p.exponent.Exponent? {
      assert text[|m|] == p.exponent.marker;
    }
  }

  lemma AllDigitsIsWhole(p: Parts)
    requires p.Valid() && AllDigits(p.Render())
    ensures p.Render() == p.whole
  {
    RenderStarts(p);
    PartsShow(p);
    assert p.Mantissa() + p.exponent.Render() == p.whole;
  }

  /** A number text the integer reader takes for a positive value is all digits without a leading zero. */
  lemma PositiveIntegerText(p: Parts)
    requires p.Valid() && ParseInt64(p.Render()).Some? && ParseInt64(p.Render()).value >= 1
    ensures p.Render() == p.whole && Value(p.whole) == ParseInt64(p.Render()).value
  {
    SignDecides(p.Render());
    RenderStarts(p);
    AllDigitsIsWhole(p);
  }

  lemma DatesAgree(members: seq<Member>, name: string)
    requires forall i :: 0 <= i < |members| ==> NumbersValid(members[i].value)
    requires TokenCheck.DateOf(members, name).Some?
    ensures V.NumericDate(members, name) == TokenCheck.DateOf(members, name)
  {
    LookupPresent(members, name);
    var text := Lookup(members, name).value.text;
    var i :| 0 <= i < |members| && members[i] == Member(name, Lookup(members, name).value);
    assert JsonNumber(text);
    var p: Parts :| p.Valid() && p.Render() == text;
    PositiveIntegerText(p);
    if |text| > 12 {
      LongNumeral(text);
      PowGrows(12, |text| - 1);
      assert Pow10(12) == 1_000_000_000_000 by { TwelveDigits(); }
    }
  }

  lemma TwelveDigits()
    ensures Pow10(12) == 1_000_000_000_000
  {
    assert Pow10(6) == 1_000_000 by { assert Pow10(3) == 1_000; }
    assert Pow10(9) == 1_000_000_000;
  }

  // ----- the header and the claims -----

  lemma {:induction false} TextIsString(members: seq<Member>, name: string, pattern: string -> bool)
    requires TokenCheck.Text(members, name).Some? && TokenCheck.Text(members, name).value != ""
    requires pattern(TokenCheck.Text(members, name).value)
    ensures V.StringMember(members, name, pattern) == TokenCheck.Text(members, name)
    ensures Lookup(members, name).Some? && Lookup(members, name).value.String?
  {
  }

  lemma HeaderIsScalar(env: Env, members: seq<Member>)
    requires TokenCheck.HeaderShape(members)
    ensures forall i :: 0 <= i < |V.HEADER_NAMES| ==> ScalarAt(env, members, V.HEADER_NAMES[i])
  {
  }

  lemma HeaderTexts(members: seq<Member>)
    requires TokenCheck.HeaderShape(members)
    ensures V.StringMember(members, "alg", _ => true) == Some("EdDSA")
    ensures V.StringMember(members, "typ", _ => true) == Some("workload+jwt")
    ensures V.StringMember(members, "kid", V.KidPattern).Some?
  {
  }

  lemma HeaderAgrees(env: Env, raw: Bytes)
    requires env.Lawful()
    requires TokenCheck.UniqueObject(env, raw).Some? && TokenCheck.HeaderShape(TokenCheck.UniqueObject(env, raw).value)
    ensures V.ParseHeader(env, raw).Some?
  {
    var members := TokenCheck.UniqueObject(env, raw).value;
    HeaderTexts(members);
    HeaderIsScalar(env, members);
    ClosedByCount(members, V.HEADER_NAMES);
    ClosedScalarsAccepted(env, members, V.HEADER_NAMES);
  }

  /** Every claim both readers accept is read alike. */
  lemma ClaimsOfAgree(env: Env, members: seq<Member>, issuer: string, audience: string)
    requires env.Lawful() && env.issuerShape(issuer) && V.WorkloadAudience(audience)
    requires forall i :: 0 <= i < |members| ==> NumbersValid(members[i].value)
    requires TokenCheck.TextClaims(members, issuer, audience)
    requires TokenCheck.DateClaims(members).Some? && TokenCheck.DateClaims(members).value.nbf < TokenCheck.DateClaims(members).value.exp
    ensures var dates, claims := TokenCheck.DateClaims(members).value, V.ClaimsOf(env, members);
            && claims.Some?
            && claims.value.issuer == issuer && claims.value.audience == audience
            && claims.value.notBefore == dates.nbf && claims.value.expiresAt == dates.exp
  {
    var any := (_: string) => true;
    TextIsString(members, "iss", env.issuerShape);
    TextIsString(members, "aud", any);
    TextIsString(members, "sub", V.SubjectPattern);
    TextIsString(members, "jti", V.TokenIdPattern);
    TextIsString(members, "principal_type", any);
    DatesAgree(members, "iat");
    DatesAgree(members, "nbf");
    DatesAgree(members, "exp");
  }

  predicate ScalarAt(env: Env, members: seq<Member>, name: string) {
    Lookup(members, name).Some? && IsScalar(env, Lookup(members, name).value) && LowerCase(name)
  }

  lemma TextsAreScalar(env: Env, members: seq<Member>, issuer: string, audience: string)
    requires TokenCheck.TextClaims(members, issuer, audience)
    ensures ScalarAt(env, members, "iss") && ScalarAt(env, members, "aud") && ScalarAt(env, members, "sub")
    ensures ScalarAt(env, members, "principal_type") && ScalarAt(env, members, "jti")
  {
  }

  lemma DatesAreScalar(env: Env, members: seq<Member>)
    requires env.Lawful() && forall i :: 0 <= i < |members| ==> NumbersValid(members[i].value)
    requires TokenCheck.DateClaims(members).Some?
    ensures ScalarAt(env, members, "iat") && ScalarAt(env, members, "nbf") && ScalarAt(env, members, "exp")
  {
    DatesAgree(members, "iat");
    DatesAgree(members, "nbf");
    DatesAgree(members, "exp");
    assert ShortNumber(Lookup(members, "iat").value.text) && ShortNumber(Lookup(members, "nbf").value.text) && ShortNumber(Lookup(members, "exp").value.text);
  }

  lemma ClaimsAreScalar(env: Env, members: seq<Member>, issuer: string, audience: string)
    requires env.Lawful() && forall i :: 0 <= i < |members| ==> NumbersValid(members[i].value)
    requires TokenCheck.TextClaims(members, issuer, audience) && TokenCheck.DateClaims(members).Some?
    ensures forall i :: 0 <= i < |V.CLAIM_NAMES| ==> ScalarAt(env, members, V.CLAIM_NAMES[i])
  {
    TextsAreScalar(env, members, issuer, audience);
    DatesAreScalar(env, members);
  }

  lemma ClosedScalarsAccepted(env: Env, members: seq<Member>, names: seq<string>)
    requires env.Lawful() && DistinctNames(members) && V.ClosedSet(members, names)
    requires forall i :: 0 <= i < |names| ==> ScalarAt(env, members, names[i])
    ensures Accepts(Rule(env.fold, env.fits, Unlimited), Object(members))
  {
    forall i | 0 <= i < |members| ensures LowerCase(members[i].name) && IsScalar(env, members[i].value) {
      assert members[i].name in names;
      LookupIsMember(members, i);
    }
    ScalarObjectAccepted(env, members);
  }

  lemma ClaimsAgree(env: Env, raw: Bytes, issuer: string, audience: string)
    requires env.Lawful() && env.issuerShape(issuer) && V.WorkloadAudience(audience)
    requires TokenCheck.UniqueObject(env, raw).Some?
    requires var members := TokenCheck.UniqueObject(env, raw).value;
             && |members| == |V.CLAIM_NAMES|
             && (forall i :: 0 <= i < |V.CLAIM_NAMES| ==> Lookup(members, V.CLAIM_NAMES[i]).Some?)
             && TokenCheck.TextClaims(members, issuer, audience)
             && TokenCheck.DateClaims(members).Some?
             && TokenCheck.DateClaims(members).value.nbf < TokenCheck.DateClaims(members).value.exp
    ensures var dates := TokenCheck.DateClaims(TokenCheck.UniqueObject(env, raw).value).value;
            var claims := V.ParseClaims(env, raw);
            && claims.Some?
            && claims.value.issuer == issuer && claims.value.audience == audience
            && claims.value.notBefore == dates.nbf && claims.value.expiresAt == dates.exp
  {
    var members := TokenCheck.UniqueObject(env, raw).value;
    assert NumbersValid(Object(members));
    ClosedByCount(members, V.CLAIM_NAMES);
    ClaimsAreScalar(env, members, issuer, audience);
    ClosedScalarsAccepted(env, members, V.CLAIM_NAMES);
    ClaimsOfAgree(env, members, issuer, audience);
    AcceptedIsParsed(env, raw, members);
  }

  lemma AcceptedIsParsed(env: Env, raw: Bytes, members: seq<Member>)
    requires env.read(raw) == Some(Object(members)) && Accepts(Rule(env.fold, env.fits, Unlimited), Object(members))
    requires V.ClosedSet(members, V.CLAIM_NAMES)
    ensures V.ParseClaims(env, raw) == V.ClaimsOf(env, members)
  {
  }

  /** At or after nbf, and before the end of the lifetime and before exp by the margin. */
  predicate InWindow(cfg: TokenCheck.Settings, e: TokenCheck.Entry, nbf: int, exp: int, now: int) {
    nbf * SECOND <= now && now < e.sent + e.lifetime - cfg.margin && now < exp * SECOND - cfg.margin
  }

  /** Inside the usable window the reading, in whole seconds, is at or after nbf and before exp. */
  lemma WindowInsideDates(cfg: TokenCheck.Settings, e: TokenCheck.Entry, dates: TokenCheck.Dates, now: int)
    requires cfg.margin > 0
    requires InWindow(cfg, e, dates.nbf, dates.exp, now)
    ensures dates.nbf <= now / SECOND < dates.exp
  {
  }

  lemma ShapeAgrees(env: Env, token: string)
    requires env.Lawful() && |token| <= V.MAX_TOKEN && TokenCheck.WorkloadTokenShape(env, token)
    ensures var parts := V.SplitCompact(token);
            && parts.Some? && env.strict(parts.value[0]).Some?
            && V.ParseHeader(env, env.strict(parts.value[0]).value).Some?
  {
    var parts := Split(token, '.');
    AlphabetIsTrimmed(token);
    HeaderAgrees(env, env.strict(parts[0]).value);
  }

  lemma DatedClaimsAgree(env: Env, token: string, issuer: string, audience: string)
    requires env.Lawful() && env.issuerShape(issuer) && V.WorkloadAudience(audience)
    requires TokenCheck.WorkloadTokenShape(env, token)
    requires var dates := TokenCheck.TokenClaims(env, token, issuer, audience); dates.Some? && dates.value.nbf < dates.value.exp
    ensures var dates, payload := TokenCheck.TokenClaims(env, token, issuer, audience).value, env.strict(Split(token, '.')[1]);
            && payload.Some? && V.ParseClaims(env, payload.value).Some?
            && var claims := V.ParseClaims(env, payload.value).value;
            && claims.issuer == issuer && claims.audience == audience
            && claims.notBefore == dates.nbf && claims.expiresAt == dates.exp
  {
    ClaimsAgree(env, env.strict(Split(token, '.')[1]).value, issuer, audience);
  }

  /** Both readings of a usable token: the verifier finds a kid and the same claims. */
  lemma UsableIsContracted(env: Env, cfg: TokenCheck.Settings, e: TokenCheck.Entry, now: int)
    requires env.Lawful() && cfg.Valid(env) && V.WorkloadAudience(e.audience)
    requires TokenCheck.CheckToken(env, cfg, e, now).Usable?
    ensures V.Contracted(env, e.token).Some?
    ensures var (_, claims) := V.Contracted(env, e.token).value;
            && claims.issuer == cfg.issuer && claims.audience == e.audience
            && InWindow(cfg, e, claims.notBefore, claims.expiresAt, now)
            && claims.notBefore <= now / SECOND < claims.expiresAt
  {
    var dates := TokenCheck.TokenClaims(env, e.token, cfg.issuer, e.audience).value;
    WindowInsideDates(cfg, e, dates, now);
    ShapeAgrees(env, e.token);
    DatedClaimsAgree(env, e.token, cfg.issuer, e.audience);
  }

  /** Once the claims match and the reading lies inside the dates, only the key decides. */
  lemma KeyDecides(env: Env, v: V.Verifier, token: string, now: int, kid: string, claims: V.Claims)
    requires v.Valid(env) && V.Contracted(env, token) == Some((kid, claims))
    requires claims.issuer == v.issuer && claims.audience == v.audience
    requires claims.notBefore <= now / SECOND < claims.expiresAt
    ensures V.KeyAccepts(env, v, token, kid) <==> V.Verify(env, v, token, now) == V.Accepted(claims)
  {
  }

  /** The member is a number of 1 to 12 digits with the value, between 1 and the last date of the year 9999. */
  predicate Dated(members: seq<Member>, name: string, value: int) {
    && Lookup(members, name).Some? && Lookup(members, name).value.Number?
    && var text := Lookup(members, name).value.text;
       0 < |text| <= 12 && AllDigits(text) && Value(text) == value && 1 <= value <= 253402300799
  }

  /** A header is read exactly when its members are alg, typ and kid, EdDSA and workload+jwt, and the kid is 1 to 256
      characters from ! to ~. */
  lemma HeaderExactly(env: Env, raw: Bytes, kid: string)
    ensures V.ParseHeader(env, raw) == Some(kid) <==>
            && V.DecodeObject(env, raw).Some?
            && var m := V.DecodeObject(env, raw).value;
               && (forall i :: 0 <= i < |m| ==> m[i].name in ["alg", "typ", "kid"])
               && Lookup(m, "alg") == Some(String("EdDSA")) && Lookup(m, "typ") == Some(String("workload+jwt"))
               && Lookup(m, "kid") == Some(String(kid)) && 1 <= |kid| <= 256 && (forall i :: 0 <= i < |kid| ==> '!' <= kid[i] <= '~')
  {
    hide V.DecodeObject, Lookup;
    assert V.HEADER_NAMES[0] == "alg" && V.HEADER_NAMES[1] == "typ" && V.HEADER_NAMES[2] == "kid";
  }

  /** The claims are read exactly when the eight members say so: the issuer by its rule, a workload audience, the
      subject and the token id by their shapes, the type of a workload, and three dates, not before at or after issued
      at, and expiry after both and at most 300 seconds after issued at. */
  lemma ClaimsExactly(env: Env, members: seq<Member>, c: V.Claims)
    ensures V.ClaimsOf(env, members) == Some(c) <==>
            && Lookup(members, "iss") == Some(String(c.issuer)) && env.issuerShape(c.issuer)
            && Lookup(members, "aud") == Some(String(c.audience)) && (c.audience == "auth-service" || c.audience == "dev-health-api")
            && Lookup(members, "sub") == Some(String(c.subject)) && V.SubjectPattern(c.subject)
            && Lookup(members, "principal_type") == Some(String("workload"))
            && Lookup(members, "jti") == Some(String(c.tokenId)) && V.TokenIdPattern(c.tokenId)
            && Dated(members, "iat", c.issuedAt) && Dated(members, "nbf", c.notBefore) && Dated(members, "exp", c.expiresAt)
            && c.issuedAt <= c.notBefore < c.expiresAt <= c.issuedAt + 300
  {
    hide Lookup, V.SubjectPattern, V.TokenIdPattern;
  }

  /** A verifier accepts a token, with these claims, exactly when its contract is kept with them, its kid is not denied
      and resolves to a 32-byte key, that key verifies its 64-byte signature over the header and the payload, the
      issuer and the audience are the verifier's, and the reading in whole seconds, moved by the leeway, is at or
      after nbf and before exp. */
  lemma VerifyExactly(env: Env, v: V.Verifier, token: string, now: int, claims: V.Claims)
    ensures V.Verify(env, v, token, now) == V.Accepted(claims) <==>
            && V.Contracted(env, token).Some? && V.Contracted(env, token).value.1 == claims
            && var kid, parts := V.Contracted(env, token).value.0, Split(token, '.');
               && kid !in v.denied && v.keys(kid).Known? && |v.keys(kid).key| == 32
               && |parts| == 3 && env.strict(parts[2]).Some? && |env.strict(parts[2]).value| == 64
               && v.verify(v.keys(kid).key, parts[0] + "." + parts[1], env.strict(parts[2]).value)
               && claims.issuer == v.issuer && claims.audience == v.audience
               && claims.notBefore - v.leeway <= now / 1_000_000_000 < claims.expiresAt + v.leeway
  {
    hide V.Contracted;
  }

  /** A token the check calls usable at now has a kid, and a verifier of the same issuer and audience, with any
      legal leeway, accepts it at the same reading exactly when that kid is not denied, resolves to a key and
      the key verifies the signature. The claims it returns carry the issuer and the audience asked for. */
  lemma UsableTokenVerifies(env: Env, cfg: TokenCheck.Settings, e: TokenCheck.Entry, now: int, v: V.Verifier)
    requires env.Lawful() && cfg.Valid(env) && v.Valid(env)
    requires v.issuer == cfg.issuer && v.audience == e.audience
    requires TokenCheck.CheckToken(env, cfg, e, now).Usable?
    ensures V.Contracted(env, e.token).Some?
    ensures var (kid, claims) := V.Contracted(env, e.token).value;
            && claims.issuer == cfg.issuer && claims.audience == e.audience
            && (V.KeyAccepts(env, v, e.token, kid) <==> V.Verify(env, v, e.token, now) == V.Accepted(claims))
  {
    UsableIsContracted(env, cfg, e, now);
    var (kid, claims) := V.Contracted(env, e.token).value;
    KeyDecides(env, v, e.token, now, kid, claims);
  }

  // ----- the check refuses nothing else -----

  lemma DecodedIsUnique(env: Env, raw: Bytes)
    requires V.DecodeObject(env, raw).Some?
    ensures TokenCheck.UniqueObject(env, raw) == V.DecodeObject(env, raw) && DistinctNames(V.DecodeObject(env, raw).value)
  {
    var members := V.DecodeObject(env, raw).value;
    assert DistinctUnder(env.fold, members);
  }

  /** Distinct members with exactly the given names are as many as the names. */
  lemma ClosedCount(members: seq<Member>, names: seq<string>)
    requires DistinctNames(members) && V.ClosedSet(members, names)
    requires forall i, j :: 0 <= i < j < |names| ==> names[i] != names[j]
    ensures |members| == |names|
  {
    forall i | 0 <= i < |names| ensures names[i] in NameSet(members) { LookupPresent(members, names[i]); }
    DistinctNameCount(members);
    DistinctCount(names);
    assert NameSet(members) == Elements(names);
  }

  lemma NumericIsDate(members: seq<Member>, name: string)
    requires V.NumericDate(members, name).Some?
    ensures TokenCheck.DateOf(members, name) == V.NumericDate(members, name)
  {
    var text := Lookup(members, name).value.text;
    assert IsDigit(text[0]);
  }

  lemma HeaderIsShaped(env: Env, raw: Bytes)
    requires V.ParseHeader(env, raw).Some?
    ensures TokenCheck.UniqueObject(env, raw).Some? && TokenCheck.HeaderShape(TokenCheck.UniqueObject(env, raw).value)
  {
    DecodedIsUnique(env, raw);
    ClosedCount(V.DecodeObject(env, raw).value, V.HEADER_NAMES);
  }

  lemma ClaimsAreRead(env: Env, members: seq<Member>)
    requires V.ClaimsOf(env, members).Some?
    ensures var c := V.ClaimsOf(env, members).value;
            && TokenCheck.TextClaims(members, c.issuer, c.audience)
            && TokenCheck.DateClaims(members) == Some(TokenCheck.Dates(c.issuedAt, c.notBefore, c.expiresAt))
  {
    NumericIsDate(members, "iat");
    NumericIsDate(members, "nbf");
    NumericIsDate(members, "exp");
  }

  /** The verifier's kid and claims, a signature of the right size, and no part left empty. */
  lemma ContractedIsShaped(env: Env, token: string)
    requires env.Lawful() && V.Contracted(env, token).Some? && SignatureSized(env, token)
    ensures |token| <= V.MAX_TOKEN && TokenCheck.WorkloadTokenShape(env, token)
  {
    var parts := Split(token, '.');
    HeaderIsShaped(env, env.strict(parts[0]).value);
    assert parts[0] != "" && parts[1] != "" && parts[2] != "";
    assert TokenCheck.CompactJWS(env, token);
  }

  predicate SignatureSized(env: Env, token: string) {
    var parts := Split(token, '.');
    |parts| == 3 && env.strict(parts[2]).Some? && |env.strict(parts[2]).value| == SIGNATURE_SIZE
  }

  lemma ContractedIsDated(env: Env, token: string)
    requires TokenCheck.WorkloadTokenShape(env, token) && V.Contracted(env, token).Some?
    ensures var c := V.Contracted(env, token).value.1;
            TokenCheck.TokenClaims(env, token, c.issuer, c.audience) == Some(TokenCheck.Dates(c.issuedAt, c.notBefore, c.expiresAt))
  {
    var raw := env.strict(Split(token, '.')[1]).value;
    DecodedIsUnique(env, raw);
    ClosedCount(V.DecodeObject(env, raw).value, V.CLAIM_NAMES);
    ClaimsAreRead(env, V.DecodeObject(env, raw).value);
  }

  /** The check calls a token usable exactly when the verifier's own readers find its contract kept with the
      issuer and the audience asked for, its signature has the size of one, and the reading is in its window. */
  lemma UsableExactly(env: Env, cfg: TokenCheck.Settings, e: TokenCheck.Entry, now: int)
    requires env.Lawful() && cfg.Valid(env) && V.WorkloadAudience(e.audience)
    ensures TokenCheck.CheckToken(env, cfg, e, now).Usable? <==>
            && V.Contracted(env, e.token).Some? && SignatureSized(env, e.token)
            && var (_, c) := V.Contracted(env, e.token).value;
            c.issuer == cfg.issuer && c.audience == e.audience && InWindow(cfg, e, c.notBefore, c.expiresAt, now)
  {
    if TokenCheck.CheckToken(env, cfg, e, now).Usable? { UsableIsContracted(env, cfg, e, now); }
    if V.Contracted(env, e.token).Some? && SignatureSized(env, e.token) {
      var (_, c) := V.Contracted(env, e.token).value;
      ContractedIsShaped(env, e.token);
      ContractedIsDated(env, e.token);
    }
  }
}
