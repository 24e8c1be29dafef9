/** What the token client and the token verifier both read: bytes, documents and the claim shapes. */
module TokenWire {
  import opened Wrappers
  import opened Digits
  import opened NumberText
  import opened JsonDoc
  import opened Compact

  type Bytes = seq<bv8>

  /** Every number of the document is a number of the JSON grammar. */
  ghost predicate NumbersValid(d: Doc) {
    match d
    case Number(text) => JsonNumber(text)
    case Array(items) => forall i :: 0 <= i < |items| ==> NumbersValid(items[i])
    case Object(members) => forall i :: 0 <= i < |members| ==> NumbersValid(members[i].value)
    case _ => true
  }

  type Json = d: Doc | NumbersValid(d) witness Null

  /** The library functions both sides call: the lax and the strict base64url decoder, the JSON reader (none
      when the bytes are not exactly one JSON value), the case folding of member names, the number texts a float64
      can hold, and the issuer rule, whose pattern is the same text on both sides. */
  datatype Env = Env(lax: string -> bool, strict: string -> Option<Bytes>, read: Bytes -> Option<Json>,
                     fold: string -> string, fits: string -> bool, issuerShape: string -> bool)
  {
    /** Folding leaves a name of lower-case ASCII letters and underscores as it is, a float64 holds every number of
        up to twelve digits, no issuer is empty, the lax decoder takes what the strict one takes, and the empty text
        holds no JSON value. */
    ghost predicate Lawful() {
      && (forall s :: LowerCase(s) ==> fold(s) == s)
      && (forall s {:trigger ShortNumber(s)} :: ShortNumber(s) ==> fits(s))
      && !issuerShape("")
      && (forall s :: strict(s).Some? ==> lax(s))
      && (strict("").Some? ==> strict("").value == [])
      && read([]).None?
    }
  }

  predicate ShortNumber(s: string) { |s| <= 12 && AllDigits(s) }

  predicate LowerCase(s: string) {
    forall i :: 0 <= i < |s| ==> 'a' <= s[i] <= 'z' || s[i] == '_'
  }

  const SIGNATURE_SIZE := 64
  const KEY_SIZE := 32
  const SECOND := 1_000_000_000
}

/** The client's one check of a workload token. Instants and durations are nanoseconds. */
module TokenCheck {
  import opened Wrappers
  import opened NumberText
  import opened JsonDoc
  import opened Compact
  import opened TokenWire

  datatype Settings = Settings(issuer: string, margin: int, fraction: real) {
    predicate Valid(env: Env) { env.issuerShape(issuer) && 0 < margin <= 120 * SECOND && 0.0 < fraction < 1.0 }
  }

  /** A token as the exchange answered it: when the request was sent and the lifetime it named. */
  datatype Entry = Entry(token: string, audience: string, sent: int, lifetime: int)

  datatype Window = Window(notBefore: int, refreshAt: int, usableUntil: int)

  datatype Checked = Usable(window: Window) | NotYetValid(window: Window) | Refused

  /** The client's own copies of the shapes and limits of the contract. */
  predicate KidShape(s: string) { 1 <= |s| <= 256 && forall i :: 0 <= i < |s| ==> '!' <= s[i] <= '~' }

  predicate SubjectShape(s: string) { |s| > 4 && s[..4] == "prn_" && Unpadded(s[4..]) }

  predicate TokenIdShape(s: string) { 22 <= |s| <= 64 && Unpadded(s) }

  /** Only characters of unpadded base64url. */
  predicate Unpadded(s: string) {
    forall i :: 0 <= i < |s| ==> 'A' <= s[i] <= 'Z' || 'a' <= s[i] <= 'z' || '0' <= s[i] <= '9' || s[i] == '-' || s[i] == '_'
  }

  const CLAIM_MEMBERS := ["iss", "aud", "sub", "principal_type", "jti", "iat", "nbf", "exp"]
  const MAX_ACCESS_TOKEN := 8192
  const MAX_NUMERIC_DATE := 253402300799
  const MAX_LIFETIME := 300

  /** A JSON object whose member names are all distinct. */
  function UniqueObject(env: Env, raw: Bytes): Option<seq<Member>> {
    match env.read(raw)
    case Some(d) => if d.Object? && DistinctNames(d.members) then Some(d.members) else None
    case None => None
  }

  /** A member unmarshalled into a string: null leaves it empty. */
  function Text(members: seq<Member>, name: string): Option<string> {
    match Lookup(members, name)
    case Some(String(s)) => Some(s)
    case Some(Null) => Some("")
    case _ => None
  }

  predicate CompactJWS(env: Env, value: string) {
    var parts := Split(value, '.');
    && |parts| == 3
    && forall i :: 0 <= i < 3 ==> parts[i] != "" && Unpadded(parts[i]) && env.lax(parts[i])
  }

  predicate HeaderShape(members: seq<Member>) {
    var kid := Text(members, "kid");
    && |members| == 3
    && Text(members, "alg") == Some("EdDSA")
    && Text(members, "typ") == Some("workload+jwt")
    && kid.Some? && KidShape(kid.value)
  }

  predicate WorkloadTokenShape(env: Env, token: string) {
    CompactJWS(env, token) &&
    var parts := Split(token, '.');
    var header, signature := env.strict(parts[0]), env.strict(parts[2]);
    && header.Some?
    && UniqueObject(env, header.value).Some? && HeaderShape(UniqueObject(env, header.value).value)
    && signature.Some? && |signature.value| == SIGNATURE_SIZE
  }

  datatype Dates = Dates(iat: int, nbf: int, exp: int)

  function DateOf(members: seq<Member>, name: string): Option<int> {
    match Lookup(members, name)
    case Some(Number(text)) =>
      var v := ParseInt64(text);
      if v.Some? && 1 <= v.value <= MAX_NUMERIC_DATE then v else None
    case _ => None
  }

  predicate TextClaims(members: seq<Member>, issuer: string, audience: string) {
    var sub, jti := Text(members, "sub"), Text(members, "jti");
    && Text(members, "aud") == Some(audience)
    && Text(members, "principal_type") == Some("workload")
    && Text(members, "iss") == Some(issuer)
    && sub.Some? && SubjectShape(sub.value)
    && jti.Some? && TokenIdShape(jti.value)
  }

  function DateClaims(members: seq<Member>): Option<Dates> {
    var iat, nbf, exp := DateOf(members, "iat"), DateOf(members, "nbf"), DateOf(members, "exp");
    if iat.None? || nbf.None? || exp.None? || nbf.value < iat.value || exp.value - iat.value > MAX_LIFETIME then None
    else Some(Dates(iat.value, nbf.value, exp.value))
  }

  function TokenClaims(env: Env, token: string, issuer: string, audience: string): Option<Dates>
    requires WorkloadTokenShape(env, token)
  {
    var payload := env.strict(Split(token, '.')[1]);
    if payload.None? then None
    else
      var members := UniqueObject(env, payload.value);
      if members.None? || |members.value| != |CLAIM_MEMBERS| || (exists i :: 0 <= i < |CLAIM_MEMBERS| && Lookup(members.value, CLAIM_MEMBERS[i]).None?) then None
      else if !TextClaims(members.value, issuer, audience) then None
      else DateClaims(members.value)
  }

  function Min(a: int, b: int): int { if a < b then a else b }

  function WindowOf(cfg: Settings, e: Entry, dates: Dates): Window {
    var usableUntil := Min(e.sent + e.lifetime, dates.exp * SECOND) - cfg.margin;
    var refreshAt := e.sent + ((e.lifetime as real) * cfg.fraction).Floor;
    Window(dates.nbf * SECOND, Min(refreshAt, usableUntil), usableUntil)
  }

  function CheckToken(env: Env, cfg: Settings, e: Entry, now: int): Checked {
    if |e.token| > MAX_ACCESS_TOKEN || !WorkloadTokenShape(env, e.token) then Refused
    else
      var dates := TokenClaims(env, e.token, cfg.issuer, e.audience);
      if dates.None? then Refused
      else
        var w := WindowOf(cfg, e, dates.value);
        if now < w.notBefore then NotYetValid(w)
        else if now >= w.usableUntil then Refused
        else Usable(w)
  }
}

/** The canonical workload-token verifier. */
module WorkloadVerifier {
  import opened Wrappers
  import opened Digits
  import opened JsonDoc
  import opened StrictJson
  import opened Compact
  import opened TokenWire

  datatype KeyLookup = Known(key: Bytes) | Unknown | Unreadable

  datatype Verifier = Verifier(issuer: string, audience: string, keys: string -> KeyLookup, denied: set<string>,
                               leeway: int, verify: (Bytes, string, Bytes) -> bool)
  {
    /** What its constructor demands; the leeway is in whole seconds. */
    predicate Valid(env: Env) {
      env.issuerShape(issuer) && WorkloadAudience(audience) && 0 <= leeway <= 30
    }
  }

  datatype Claims = Claims(issuer: string, audience: string, subject: string, tokenId: string, issuedAt: int, notBefore: int, expiresAt: int)

  datatype Reason = Contract | UnknownKid | Signature | Issuer | Audience | NotYetValid | Expired

  datatype Outcome = Accepted(claims: Claims) | Refused(reason: Reason) | KeysUnavailable

  /** The verifier's patterns, member sets and limits. */
  predicate KidPattern(s: string) { 1 <= |s| <= 256 && forall i :: 0 <= i < |s| ==> '!' <= s[i] <= '~' }

  predicate SubjectPattern(s: string) { "prn_" <= s && |s| >= 5 && Alphabet(s[4..]) }

  predicate TokenIdPattern(s: string) { 22 <= |s| <= 64 && Alphabet(s) }

  const HEADER_NAMES := ["alg", "typ", "kid"]
  const CLAIM_NAMES := ["iss", "aud", "sub", "principal_type", "jti", "iat", "nbf", "exp"]
  const MAX_TOKEN := 8192
  const MAX_DATE := 253402300799
  const LIFETIME_CEILING := 300

  predicate WorkloadAudience(audience: string) { audience == "auth-service" || audience == "dev-health-api" }

  /** Exactly one JSON object whose numbers fit, with no name repeated, under case folding, at any depth. */
  function DecodeObject(env: Env, raw: Bytes): Option<seq<Member>> {
    match env.read(raw)
    case Some(d) => if Accepts(Rule(env.fold, env.fits, Unlimited), d) && d.Object? then Some(d.members) else None
    case None => None
  }

  predicate ClosedSet(members: seq<Member>, names: seq<string>) {
    && (forall i :: 0 <= i < |members| ==> members[i].name in names)
    && (forall i :: 0 <= i < |names| ==> Lookup(members, names[i]).Some?)
  }

  function StringMember(members: seq<Member>, name: string, pattern: string -> bool): Option<string> {
    match Lookup(members, name)
    case Some(String(s)) => if pattern(s) then Some(s) else None
    case _ => None
  }

  function NumericDate(members: seq<Member>, name: string): Option<int> {
    match Lookup(members, name)
    case Some(Number(text)) =>
      if text != "" && AllDigits(text) && |text| <= 12 && 1 <= Value(text) <= MAX_DATE then Some(Value(text)) else None
    case _ => None
  }

  function ParseHeader(env: Env, raw: Bytes): Option<string> {
    var doc := DecodeObject(env, raw);
    if doc.None? || !ClosedSet(doc.value, HEADER_NAMES) then None
    else if StringMember(doc.value, "alg", _ => true) != Some("EdDSA") then None
    else if StringMember(doc.value, "typ", _ => true) != Some("workload+jwt") then None
    else StringMember(doc.value, "kid", KidPattern)
  }

  function ClaimsOf(env: Env, members: seq<Member>): Option<Claims> {
    var iss := StringMember(members, "iss", env.issuerShape);
    var aud := StringMember(members, "aud", _ => true);
    var sub := StringMember(members, "sub", SubjectPattern);
    var jti := StringMember(members, "jti", TokenIdPattern);
    var iat, nbf, exp := NumericDate(members, "iat"), NumericDate(members, "nbf"), NumericDate(members, "exp");
    if iss.None? || aud.None? || sub.None? || jti.None? || !WorkloadAudience(aud.value) then None
    else if StringMember(members, "principal_type", _ => true) != Some("workload") then None
    else if iat.None? || nbf.None? || exp.None? then None
    else if nbf.value < iat.value || exp.value <= nbf.value || exp.value - iat.value > LIFETIME_CEILING then None
    else Some(Claims(iss.value, aud.value, sub.value, jti.value, iat.value, nbf.value, exp.value))
  }

  function ParseClaims(env: Env, raw: Bytes): Option<Claims> {
    var doc := DecodeObject(env, raw);
    if doc.None? || !ClosedSet(doc.value, CLAIM_NAMES) then None else ClaimsOf(env, doc.value)
  }

  function SplitCompact(token: string): (r: Option<seq<string>>)
    ensures r.Some? ==> |r.value| == 3
  {
    var parts := Split(token, '.');
    if |token| > MAX_TOKEN || !Trimmed(token) || |parts| != 3 || (exists i :: 0 <= i < 3 && !Alphabet(parts[i])) then None
    else Some(parts)
  }

  /** The part of the decision that needs no key: the token's kid and its claims. */
  function Contracted(env: Env, token: string): Option<(string, Claims)> {
    var parts := SplitCompact(token);
    if parts.None? then None
    else
      var header, payload := env.strict(parts.value[0]), env.strict(parts.value[1]);
      if header.None? || payload.None? then None
      else
        var kid, claims := ParseHeader(env, header.value), ParseClaims(env, payload.value);
        if kid.None? || claims.None? then None else Some((kid.value, claims.value))
  }

  /** The kid is not denied, resolves to an Ed25519 key, and the key verifies the signature. */
  predicate KeyAccepts(env: Env, v: Verifier, token: string, kid: string) {
    var parts := Split(token, '.');
    && kid !in v.denied
    && v.keys(kid).Known? && |v.keys(kid).key| == KEY_SIZE
    && |parts| == 3 && env.strict(parts[2]).Some? && |env.strict(parts[2]).value| == SIGNATURE_SIZE
    && v.verify(v.keys(kid).key, parts[0] + "." + parts[1], env.strict(parts[2]).value)
  }

  function Verify(env: Env, v: Verifier, token: string, now: int): Outcome {
    var contracted := Contracted(env, token);
    if contracted.None? then Refused(Contract)
    else
      var (kid, claims) := contracted.value;
      var seconds := now / SECOND;
      if kid in v.denied then Refused(UnknownKid)
      else if v.keys(kid).Unreadable? then KeysUnavailable
      else if v.keys(kid).Unknown? || |v.keys(kid).key| != KEY_SIZE then Refused(UnknownKid)
      else if !KeyAccepts(env, v, token, kid) then Refused(Signature)
      else if claims.issuer != v.issuer then Refused(Issuer)
      else if claims.audience != v.audience then Refused(Audience)
      else if seconds + v.leeway < claims.notBefore then Refused(NotYetValid)
      else if seconds - v.leeway >= claims.expiresAt then Refused(Expired)
      else Accepted(claims)
  }
}
