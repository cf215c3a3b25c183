/** The three-segment signed envelope of agent tokens. JSON and Ed25519 (RFC 8032)
    enter as interfaces. */
module TokenEnvelope {
  import opened Text
  import opened Base64Url
  import Scope

  const HEADER_TYPE: string := "mnemos-agent-token"
  const ALG: string := "Ed25519"
  const MAX_ID: nat := 128
  const MAX_JTI: nat := 64

  datatype Json =
    | JNull | JBool(b: bool) | JInt(n: int) | JReal(x: real) | JStr(s: string)
    | JList(items: seq<Json>) | JObj(fields: map<string, Json>)

  /** `json.dumps` to bytes and `json.loads` back; `None` is a parse error. */
  datatype Codec = Codec(dumps: Json -> seq<byte>, loads: seq<byte> -> Option<Json>)

  /** The signing key and its public half. */
  datatype Key = Key(sign: string -> seq<byte>, verify: (seq<byte>, string) -> bool)

  datatype Claims = Claims(
    iss: string, sub: string, aud: string, scope: seq<string>, iat: int, exp: int, jti: string, v: int)

  datatype EnvelopeError = Malformed | UnsupportedVersion | BadSignature

  // ----- Encoding -----

  function Strings(list: seq<string>): seq<Json> {
    seq(|list|, i requires 0 <= i < |list| => JStr(list[i]))
  }

  function HeaderJson(c: Claims): Json {
    JObj(map["typ" := JStr(HEADER_TYPE), "alg" := JStr(ALG), "v" := JInt(c.v)])
  }

  function PayloadJson(c: Claims): Json {
    JObj(map[
      "v" := JInt(c.v), "iss" := JStr(c.iss), "sub" := JStr(c.sub), "aud" := JStr(c.aud),
      "scope" := JList(Strings(c.scope)), "iat" := JInt(c.iat), "exp" := JInt(c.exp), "jti" := JStr(c.jti)])
  }

  function SigningInput(codec: Codec, c: Claims): string {
    Encode(codec.dumps(HeaderJson(c))) + "." + Encode(codec.dumps(PayloadJson(c)))
  }

  predicate RoundTrips(codec: Codec, j: Json) {
    codec.loads(codec.dumps(j)) == Some(j) && codec.dumps(j) != []
  }

  /** The serialiser is injective on headers and payloads. */
  ghost predicate IdealCodec(codec: Codec) {
    forall c: Claims :: RoundTrips(codec, HeaderJson(c)) && RoundTrips(codec, PayloadJson(c))
  }

  /** The key's own signature of these claims verifies. */
  predicate HonestKey(codec: Codec, key: Key, c: Claims) {
    var m := SigningInput(codec, c);
    key.sign(m) != [] && key.verify(key.sign(m), m)
  }

  /** `encode_agent_token` */
  function EncodeToken(codec: Codec, key: Key, c: Claims): string {
    Join([Encode(codec.dumps(HeaderJson(c))), Encode(codec.dumps(PayloadJson(c))),
          Encode(key.sign(SigningInput(codec, c)))], ".")
  }

  // ----- Decoding -----

  function Get(fields: map<string, Json>, name: string): Json {
    if name in fields then fields[name] else JNull
  }

  /** Python's `== 1` over JSON values: `true` and `1.0` compare equal. */
  predicate IsOne(j: Json) {
    j == JInt(1) || j == JBool(true) || j == JReal(1.0)
  }

  function RequireStr(fields: map<string, Json>, name: string, max: nat): Option<string> {
    match Get(fields, name)
    case JStr(s) => if s != "" && |s| <= max then Some(s) else None
    case _ => None
  }

  function RequireInt(fields: map<string, Json>, name: string): Option<int> {
    match Get(fields, name)
    case JInt(n) => Some(n)
    case _ => None
  }

  function RequireStrings(items: seq<Json>): Option<seq<string>> {
    if items == [] then Some([])
    else
      var rest :- RequireStrings(items[..|items| - 1]);
      match items[|items| - 1]
      case JStr(s) => Some(rest + [s])
      case _ => None
  }

  ghost function RequireScope(fields: map<string, Json>): Option<seq<string>> {
    match Get(fields, "scope")
    case JList(items) => (var scope :- RequireStrings(items); Scope.ValidatedScope(scope))
    case _ => None
  }

  /** `_claims_from_payload`; every failure is the malformed-token error. `scope`
      is the checked scope claim. */
  function ClaimsFrom(fields: map<string, Json>, scope: Option<seq<string>>): Option<Claims> {
    var iss :- RequireStr(fields, "iss", MAX_ID);
    var sub :- RequireStr(fields, "sub", MAX_ID);
    var aud :- RequireStr(fields, "aud", MAX_ID);
    var list :- scope;
    var iat :- RequireInt(fields, "iat");
    var exp :- RequireInt(fields, "exp");
    var jti :- RequireStr(fields, "jti", MAX_JTI);
    if exp <= iat then None else Some(Claims(iss, sub, aud, list, iat, exp, jti, 1))
  }

  ghost function ClaimsFromPayload(fields: map<string, Json>): Option<Claims> {
    ClaimsFrom(fields, RequireScope(fields))
  }

  function DecodeJson(codec: Codec, segment: string): Option<Json> {
    var bytes :- Decode(segment);
    codec.loads(bytes)
  }

  predicate KnownHeader(header: map<string, Json>) {
    Get(header, "typ") == JStr(HEADER_TYPE) && Get(header, "alg") == JStr(ALG)
  }

  ghost function VerifyAndRead(key: Key, header: map<string, Json>, payload: map<string, Json>,
                               signature: seq<byte>, signed: string): Result<Claims, EnvelopeError>
  {
    if !KnownHeader(header) then Err(UnsupportedVersion)
    else if !IsOne(Get(header, "v")) || !IsOne(Get(payload, "v")) then Err(UnsupportedVersion)
    else if !key.verify(signature, signed) then Err(BadSignature)
    else
      var claims := ClaimsFromPayload(payload);
      if claims.Some? then Ok(claims.value) else Err(Malformed)
  }

  /** `decode_agent_token`: structure, then version, then signature, then claims. */
  ghost function DecodeToken(codec: Codec, key: Key, token: string): Result<Claims, EnvelopeError> {
    var segments := Split(Strip(token), '.');
    if |segments| != 3 || "" in segments then Err(Malformed)
    else
      var header := DecodeJson(codec, segments[0]);
      var payload := DecodeJson(codec, segments[1]);
      var signature := Decode(segments[2]);
      if header.None? || payload.None? || signature.None? then Err(Malformed)
      else if !header.value.JObj? || !payload.value.JObj? then Err(Malformed)
      else VerifyAndRead(key, header.value.fields, payload.value.fields, signature.value, segments[0] + "." + segments[1])
  }

  // ----- What issued claims look like -----

  predicate ShortText(s: string, max: nat) { s != "" && |s| <= max }

  predicate WellShaped(c: Claims) {
    && c.iat < c.exp
    && ShortText(c.iss, MAX_ID) && ShortText(c.sub, MAX_ID) && ShortText(c.aud, MAX_ID) && ShortText(c.jti, MAX_JTI)
  }

  /** Claims the decoder lets through, told from the claims alone. */
  predicate Acceptable(c: Claims) {
    c.v == 1 && WellShaped(c) && Scope.IsGrantList(c.scope)
  }

  lemma {:induction false} StringsReadBack(list: seq<string>)
    ensures RequireStrings(Strings(list)) == Some(list)
  {
    if list != [] {
      var rest := list[..|list| - 1];
      StringsReadBack(rest);
      assert Strings(list)[..|list| - 1] == Strings(rest);
      assert list == rest + [list[|list| - 1]];
    }
  }

  lemma PayloadFields(c: Claims)
    ensures
      var fields := PayloadJson(c).fields;
      && Get(fields, "v") == JInt(c.v) && Get(fields, "iss") == JStr(c.iss) && Get(fields, "sub") == JStr(c.sub)
      && Get(fields, "aud") == JStr(c.aud) && Get(fields, "scope") == JList(Strings(c.scope))
      && Get(fields, "iat") == JInt(c.iat) && Get(fields, "exp") == JInt(c.exp) && Get(fields, "jti") == JStr(c.jti)
  {
    assert "iss"[0] == 'i' && "iat"[0] == 'i' && "iss"[1] != "iat"[1];
    assert "sub"[1] == 'u' && "scope"[1] == 'c';
  }

  lemma HeaderFields(c: Claims)
    ensures KnownHeader(HeaderJson(c).fields) && Get(HeaderJson(c).fields, "v") == JInt(c.v)
  {
  }

  lemma ClaimsRead(fields: map<string, Json>, c: Claims, scope: Option<seq<string>>)
    requires Get(fields, "iss") == JStr(c.iss) && Get(fields, "sub") == JStr(c.sub) && Get(fields, "aud") == JStr(c.aud)
    requires Get(fields, "jti") == JStr(c.jti) && Get(fields, "iat") == JInt(c.iat) && Get(fields, "exp") == JInt(c.exp)
    requires scope.Some? ==> scope.value == c.scope
    ensures ClaimsFrom(fields, scope) == if WellShaped(c) && scope.Some? then Some(c.(v := 1)) else None
  {
  }

  lemma ScopeReads(fields: map<string, Json>, c: Claims)
    requires Get(fields, "scope") == JList(Strings(c.scope))
    ensures RequireScope(fields) == if Scope.IsGrantList(c.scope) then Some(c.scope) else None
  {
    hide Scope.Parse, Scope.IsGrantList;
    StringsReadBack(c.scope);
    Scope.ClaimCheckAcceptsNormalForms(c.scope);
  }

  lemma PayloadReadsBack(c: Claims)
    ensures ClaimsFromPayload(PayloadJson(c).fields) == if Acceptable(c.(v := 1)) then Some(c.(v := 1)) else None
  {
    hide Scope.IsGrantList, RequireScope;
    var fields := PayloadJson(c).fields;
    PayloadFields(c);
    ScopeReads(fields, c);
    ClaimsRead(fields, c, RequireScope(fields));
  }

  lemma SegmentsReadBack(codec: Codec, key: Key, c: Claims)
    requires IdealCodec(codec) && HonestKey(codec, key, c)
    ensures
      var segments := [Encode(codec.dumps(HeaderJson(c))), Encode(codec.dumps(PayloadJson(c))),
                       Encode(key.sign(SigningInput(codec, c)))];
      && Split(Strip(EncodeToken(codec, key, c)), '.') == segments && "" !in segments
      && DecodeJson(codec, segments[0]) == Some(HeaderJson(c)) && DecodeJson(codec, segments[1]) == Some(PayloadJson(c))
      && Decode(segments[2]) == Some(key.sign(SigningInput(codec, c)))
  {
    assert RoundTrips(codec, HeaderJson(c)) && RoundTrips(codec, PayloadJson(c));
    hide Encode, Decode, Split, Strip, HeaderJson, PayloadJson;
    var (h, p, s) := (codec.dumps(HeaderJson(c)), codec.dumps(PayloadJson(c)), key.sign(SigningInput(codec, c)));
    DecodeEncode(h);
    DecodeEncode(p);
    DecodeEncode(s);
    var segments := [Encode(h), Encode(p), Encode(s)];
    JoinThree(Encode(h), Encode(p), Encode(s));
    SplitJoin(segments, '.');
  }

  lemma JoinThree(a: string, b: string, c: string)
    requires a != "" && c != "" && Symbols(a) && Symbols(c)
    ensures Strip(Join([a, b, c], ".")) == Join([a, b, c], ".")
    ensures Join([a, b, c], ".") == a + "." + (b + "." + c)
  {
    var t := a + "." + (b + "." + c);
    assert [b, c][1..] == [c] && Join([b, c], ".") == b + "." + c;
    assert [a, b, c][1..] == [b, c] && Join([a, b, c], ".") == a + "." + Join([b, c], ".");
    assert t[0] == a[0] && t[|t| - 1] == c[|c| - 1];
    StripId(t);
  }

  /** Encoding and decoding is the identity on exactly the acceptable claims; on
      all others decoding fails, on the version before anything else. */
  lemma EnvelopeRoundTrip(codec: Codec, key: Key, c: Claims)
    requires IdealCodec(codec) && HonestKey(codec, key, c)
    ensures DecodeToken(codec, key, EncodeToken(codec, key, c)) ==
      if c.v != 1 then Err(UnsupportedVersion) else if Acceptable(c) then Ok(c) else Err(Malformed)
  {
    hide EncodeToken, Encode, Decode, Split, Strip, Acceptable, ClaimsFromPayload, IdealCodec;
    SegmentsReadBack(codec, key, c);
    PayloadReadsBack(c);
    PayloadFields(c);
    HeaderFields(c);
    assert c.v == 1 ==> c.(v := 1) == c;
  }

  // ----- No token but an issued one -----

  /** With an ideal signature, whatever verifies was signed, and only signing
      inputs of `minted` claims ever were. */
  ghost predicate OnlyMintedSigned(codec: Codec, key: Key, minted: set<Claims>) {
    forall signature, m :: key.verify(signature, m) ==> exists c :: c in minted && m == SigningInput(codec, c)
  }

  lemma {:induction false} SplitIsJoin(s: string, c: char)
    ensures Join(Split(s, c), [c]) == s
  {
    if s != "" {
      SplitIsJoin(s[1..], c);
      var rest := Split(s[1..], c);
      if s[0] == c {
        assert ([""] + rest)[1..] == rest;
        assert s == [c] + s[1..];
      } else {
        var parts := [[s[0]] + rest[0]] + rest[1..];
        assert parts[1..] == rest[1..];
        assert s == [s[0]] + s[1..];
      }
    }
  }

  lemma SameSegments(h: string, p: string, h': string, p': string)
    requires Free(h, '.') && Free(p, '.') && Free(h', '.') && Free(p', '.')
    requires h + "." + p == h' + "." + p'
    ensures h == h' && p == p'
  {
    SplitFirst(h, '.', p);
    SplitFirst(h', '.', p');
    SplitFree(p, '.');
    SplitFree(p', '.');
    assert [h, p] == [h] + [p] && [h', p'] == [h'] + [p'];
  }

  /** Any string the decoder accepts, however it is spelled, carries the claims of
      a minted token. */
  lemma OnlyMintedDecode(codec: Codec, key: Key, token: string, minted: set<Claims>)
    requires IdealCodec(codec) && OnlyMintedSigned(codec, key, minted)
    requires DecodeToken(codec, key, token).Ok?
    ensures exists c :: c in minted && DecodeToken(codec, key, token).value == c.(v := 1)
  {
    var segments := Split(Strip(token), '.');
    SplitPartsFree(Strip(token), '.');
    SignedSegments(codec, key, segments[0], segments[1], Decode(segments[2]).value, minted);
  }

  lemma SignedSegments(codec: Codec, key: Key, h: string, p: string, signature: seq<byte>, minted: set<Claims>)
    requires IdealCodec(codec) && OnlyMintedSigned(codec, key, minted)
    requires Free(h, '.') && Free(p, '.') && key.verify(signature, h + "." + p)
    requires DecodeJson(codec, p).Some? && DecodeJson(codec, p).value.JObj?
    requires ClaimsFromPayload(DecodeJson(codec, p).value.fields).Some?
    ensures exists c :: c in minted && ClaimsFromPayload(DecodeJson(codec, p).value.fields).value == c.(v := 1)
  {
    var c :| c in minted && h + "." + p == SigningInput(codec, c);
    assert RoundTrips(codec, PayloadJson(c));
    var (h', p') := (codec.dumps(HeaderJson(c)), codec.dumps(PayloadJson(c)));
    DecodeEncode(h');
    DecodeEncode(p');
    SameSegments(h, p, Encode(h'), Encode(p'));
    PayloadReadsBack(c);
  }
}
